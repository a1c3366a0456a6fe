/**
 Reading and writing n bits of a byte buffer from bit position pos on, most significant bit first.
 Shifts, masks and the walk from byte to byte are the code's own; the contracts speak of the buffer
 as one big-endian number, in which the field has 8 * Length - pos - n bits below it.
 */
module BitAccess {
  import opened Powers
  import opened BitFields
  import opened BitOperators

  /** A field that lies in the buffer, and whose mask the code can compute as an int. */
  ghost predicate InBuffer(length: nat, pos: nat, n: nat) {
    n <= 30 && pos + n <= 8 * length && pos / 8 < length
  }

  function FieldPlace(length: nat, pos: nat, n: nat): nat
    requires pos + n <= 8 * length
  {
    8 * length - pos - n
  }

  /** The bits of the first byte above the field, where too large a value can run into them. */
  function Free(pos: nat, n: nat): nat {
    if pos % 8 + n <= 8 then pos % 8 else 0
  }

  method BitsGet(buf: array<byte>, pos: nat, n: nat) returns (r: nat)
    requires InBuffer(buf.Length, pos, n)
    ensures r == Field(Num(buf[..]), FieldPlace(buf.Length, pos, n), n)
  {
    hide Shl, Shr, Low, Or, And, Pow2, Field, Num, Mask;
    ghost var k, number := FieldPlace(buf.Length, pos, n), Num(buf[..]);
    var bytepos, bitpos := pos / 8, pos % 8;
    var mask := Mask(n);
    if bitpos + n <= 8 {
      var shiftwidth := 8 - (bitpos + n);
      r := And(Shr(buf[bytepos] as int, shiftwidth), mask);
      AndMask(Shr(buf[bytepos] as int, shiftwidth), n);
      FieldMeans(buf[bytepos] as int, shiftwidth, n);
      ByteField(buf[..], bytepos, shiftwidth, n);
      return;
    }
    var result, left := 0, n;
    FieldSmall(number, k, n);
    ShlZero(n);
    while bitpos + left > 8
      invariant bytepos < buf.Length && 0 <= bitpos < 8 && 0 < left <= n && 8 * bytepos + bitpos + left == pos + n
      invariant bitpos > 0 ==> left == n && result == 0 && bitpos + left > 8
      invariant (Shl(result, left) + Field(number, k, left)) % Pow2(n) == Field(number, k, n)
    {
      var next := left - (8 - bitpos);
      ReadByte(buf[..], bytepos, bitpos, left, result, k, n);
      result := Or(Shl(result, 8), buf[bytepos] as int);
      left := next;
      bitpos := 0;
      bytepos := bytepos + 1;
    }
    LastBits(buf[..], bytepos, left, k, result);
    result := Shl(result, left);
    result := Or(result, Shr(buf[bytepos] as int, 8 - left));
    AndMask(result, n);
    LowMeans(result, n);
    r := And(result, mask);
  }

  /** Any value of 64 bits may be given; a value of n bits changes the field and nothing else. */
  method BitsSet(buf: array<byte>, pos: nat, n: nat, value: nat)
    requires InBuffer(buf.Length, pos, n) && value < Pow2(64)
    modifies buf
    ensures value < Pow2(n) ==>
              Num(buf[..]) == WithField(old(Num(buf[..])), FieldPlace(buf.Length, pos, n), n, value)
    ensures Num(buf[..]) == Written(old(Num(buf[..])), FieldPlace(buf.Length, pos, n), n, Free(pos, n), value)
  {
    hide Shl, Shr, Low, Or, And, Pow2, Field, Num, Mask, WithField, Written;
    ghost var k, number := FieldPlace(buf.Length, pos, n), Num(buf[..]);
    FittingValue(number, k, n, Free(pos, n), value);
    var bytepos, bitpos := pos / 8, pos % 8;
    var mask := Mask(n);
    if bitpos + n <= 8 {
      var shiftwidth := 8 - (bitpos + n);
      MaskFits(shiftwidth, n);
      var c := And(buf[bytepos] as int, Not(64, Shl(mask, shiftwidth)));
      c := Or(c, Low(Shl(value, shiftwidth), 64));
      PokeOne(buf[..], bytepos, shiftwidth, n, value, c);
      buf[bytepos] := Low(c, 8) as byte;
      return;
    }
    var left := n;
    while bitpos + left > 8
      invariant bytepos < buf.Length && 0 <= bitpos < 8 && 0 < left <= n && 8 * bytepos + bitpos + left == pos + n
      invariant bitpos > 0 ==> bitpos + left > 8
      invariant WithField(Num(buf[..]), k, left, value % Pow2(left)) == WithField(number, k, n, value % Pow2(n))
    {
      var bits := 8 - bitpos;
      var shiftwidth := left - bits;
      mask := Mask(bits);
      var c := And(Shr(value, shiftwidth), mask);
      MaskFits(0, bits);
      PokeTop(buf[..], bytepos, bits, shiftwidth, value, k);
      buf[bytepos] := Low(Or(And(buf[bytepos] as int, Not(64, mask)), c), 8) as byte;
      left := left - bits;
      bitpos := 0;
      bytepos := bytepos + 1;
    }
    NoRoomToSpill(Num(buf[..]), k, left, value);
    NoRoomToSpill(number, k, n, value);
    mask := Mask(left);
    var shiftwidth := 8 - left;
    MaskFits(shiftwidth, left);
    var c := And(buf[bytepos] as int, Not(64, Shl(mask, shiftwidth)));
    c := Or(c, Low(Shl(value, shiftwidth), 64));
    PokeOne(buf[..], bytepos, shiftwidth, left, value, c);
    buf[bytepos] := Low(c, 8) as byte;
  }

  /** The low bits of byte i are the top bits of what is left of the field. */
  lemma NextByte(s: seq<byte>, i: nat, bits: nat, next: nat, k: nat)
    requires i < |s| && bits <= 8 && k + next == Below(s, i)
    ensures Field(Num(s), k, bits + next) == s[i] as int % Pow2(bits) * Pow2(next) + Field(Num(s), k, next)
  {
    SplitField(Num(s), k, bits, next);
    ByteField(s, i, 0, bits);
  }

  /** Taking a whole byte into the result moves its bits from what is left of the field. */
  lemma ReadByte(s: seq<byte>, i: nat, bitpos: nat, left: nat, result: nat, k: nat, n: nat)
    requires i < |s| && bitpos < 8 < bitpos + left && k + left + bitpos == Below(s, i) + 8
    requires bitpos > 0 ==> left == n && result == 0
    ensures var next, result' := left - (8 - bitpos), Or(Shl(result, 8), s[i] as int);
            (Shl(result', next) + Field(Num(s), k, next)) % Pow2(n)
              == (Shl(result, left) + Field(Num(s), k, left)) % Pow2(n)
  {
    hide Shl, Or, Pow2, Field, Num;
    EightBits();
    var b, next := s[i] as int, left - (8 - bitpos);
    OrBelow(result, 8, b);
    NextByte(s, i, 8 - bitpos, next, k);
    ShlMeans(b, next);
    if bitpos == 0 {
      ShlAdd(Shl(result, 8), b, next);
      ShlSum(result, next, 8);
    } else {
      FirstByte(b, 8 - bitpos, next, Field(Num(s), k, next));
      ShlZero(8);
      ShlZero(left);
    }
  }

  lemma FirstByte(b: nat, bits: nat, next: nat, rest: nat)
    ensures (b * Pow2(next) + rest) % Pow2(bits + next) == (b % Pow2(bits) * Pow2(next) + rest) % Pow2(bits + next)
  {
    Pow2Sum(bits, next);
    DropMultiple(b, Pow2(bits), Pow2(next), rest);
  }

  lemma DropMultiple(b: nat, p: nat, q: nat, rest: nat)
    requires p > 0 && q > 0
    ensures p * q > 0 && (b * q + rest) % (p * q) == (b % p * q + rest) % (p * q)
  {
    var d, low := b / p, b % p * q + rest;
    assert b == d * p + b % p;
    Distribute(d * p, b % p, q);
    Associate(d, p, q);
    var m := p * q;
    assert b * q + rest == d * m + low;
    assert low == low / m * m + low % m;
    Distribute(d, low / m, m);
    Quotient(b * q + rest, m, d + low / m, low % m);
  }

  /** The rest of the field is the top of the last byte. */
  lemma LastBits(s: seq<byte>, i: nat, left: nat, k: nat, result: nat)
    requires i < |s| && left <= 8 && k + left == Below(s, i) + 8
    ensures Or(Shl(result, left), Shr(s[i] as int, 8 - left)) == Shl(result, left) + Field(Num(s), k, left)
  {
    var b := s[i] as int;
    ByteField(s, i, 8 - left, left);
    TopBits(b, left);
    OrBelow(result, left, Shr(b, 8 - left));
  }

  lemma TopBits(b: nat, n: nat)
    requires b < 256 && n <= 8
    ensures Shr(b, 8 - n) == Field(b, 8 - n, n) < Pow2(n)
  {
    EightBits();
    ShrMeans(b, 8 - n);
    Pow2Sum(8 - n, n);
    QuotientBound(b, Pow2(8 - n), Pow2(n));
  }

  /** A byte in which the field ends. */
  lemma PokeOne(s: seq<byte>, i: nat, r: nat, n: nat, value: nat, c: nat)
    requires i < |s| && r + n <= 8
    requires Shl(Mask(n), r) < Pow2(64)
    requires c == Or(And(s[i] as int, Not(64, Shl(Mask(n), r))), Low(Shl(value, r), 64))
    ensures Low(c, 8) < 256
    ensures Num(s[i := Low(c, 8) as byte]) == Written(Num(s), Below(s, i) + r, n, 8 - r - n, value)
  {
    hide Shl, Shr, Low, Or, And, Pow2, Field, Num, Mask, WithField, Written;
    EightBits();
    Pieces(c, 8);
    PokedWritten(s[i] as int, r, n, value);
    ByteSpilled(s, i, r, n, value, Low(c, 8) as byte);
  }

  /** A byte beyond which the field goes on. */
  lemma PokeTop(s: seq<byte>, i: nat, bits: nat, rest: nat, value: nat, k: nat)
    requires i < |s| && bits <= 8 && k + rest == Below(s, i)
    requires Mask(bits) < Pow2(64)
    ensures var c := Low(Or(And(s[i] as int, Not(64, Mask(bits))), And(Shr(value, rest), Mask(bits))), 8);
            && c < 256
            && WithField(Num(s[i := c as byte]), k, rest, value % Pow2(rest))
            == WithField(Num(s), k, bits + rest, value % Pow2(bits + rest))
  {
    hide Shr, Low, Or, And, Pow2, Field, Num, WithField, Written;
    var v := And(Shr(value, rest), Mask(bits));
    AndMask(Shr(value, rest), bits);
    FieldMeans(value, rest, bits);
    FieldSmall(value, rest, bits);
    Pow2Grows(bits, 64);
    LowSmall(v, 64);
    FittingByte(s[i] as int, 0, bits, v);
    ByteWritten(s, i, 0, bits, v, Poked(s[i] as int, 0, bits, v) as byte);
    SplitWrite(Num(s), k, bits, rest, v, value % Pow2(rest));
    SplitField(value, 0, bits, rest);
    FieldAtZero(value, bits + rest);
    FieldAtZero(value, rest);
  }

  lemma FieldAtZero(value: nat, n: nat)
    ensures Field(value, 0, n) == value % Pow2(n)
  {
  }
}
