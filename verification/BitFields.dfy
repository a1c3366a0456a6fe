/**
 Bit fields of a number: the n bits that have k bits below them, and the number with another value
 there.  A buffer of bytes is read as one big-endian number.
 */
module BitFields {
  import opened Powers

  function Field(number: nat, k: nat, n: nat): nat {
    number / Pow2(k) % Pow2(n)
  }

  lemma FieldSmall(number: nat, k: nat, n: nat)
    ensures Field(number, k, n) < Pow2(n) && Field(number, k, n) % Pow2(n) == Field(number, k, n)
  {
    Quotient(Field(number, k, n), Pow2(n), 0, Field(number, k, n));
  }

  function WithField(number: nat, k: nat, n: nat, v: nat): int {
    number - Field(number, k, n) * Pow2(k) + v * Pow2(k)
  }

  /** A write puts the value in its place and keeps the bits above and below. */
  lemma WithFieldParts(number: nat, k: nat, n: nat, v: nat)
    requires v < Pow2(n)
    ensures var h, low := number / Pow2(k) / Pow2(n), number % Pow2(k);
            && WithField(number, k, n, v) == (h * Pow2(n) + v) * Pow2(k) + low >= 0
            && Field(WithField(number, k, n, v), k, n) == v
            && WithField(number, k, n, v) / Pow2(k) / Pow2(n) == h
            && WithField(number, k, n, v) % Pow2(k) == low
  {
    Exchange(number, Pow2(k), Pow2(n), v);
  }

  ghost predicate Apart(k: nat, n: nat, k': nat, n': nat) {
    k' >= k + n || k >= k' + n'
  }

  lemma FieldAbove(number: nat, k: nat, n: nat, k': nat, n': nat)
    requires k' >= k + n
    ensures Field(number, k', n') == number / Pow2(k) / Pow2(n) / Pow2(k' - k - n) % Pow2(n')
  {
    Shifted(number, k + n, k' - k - n);
    Shifted(number, k, n);
  }

  lemma FieldOfRest(number: nat, a: nat, b: nat, c: nat)
    requires a > 0 && b > 0 && c > 0
    ensures a * b * c > 0 && number / a % b == number % (a * b * c) / a % b
  {
    Associate(a, b, c);
    CutTwice(number, a, b * c);
    CutTwice(number / a, b, c);
    var low := number / a % (b * c);
    Quotient(low * a + number % a, a, low, number % a);
    Quotient(low, b, number / a / b % c, number / a % b);
  }

  lemma FieldBelow(number: nat, k: nat, k': nat, n': nat)
    requires k >= k' + n'
    ensures Field(number, k', n') == Field(number % Pow2(k), k', n')
  {
    var m := k - k' - n';
    Pow2Sum(k', n');
    Pow2Sum(k' + n', m);
    FieldOfRest(number, Pow2(k'), Pow2(n'), Pow2(m));
  }

  /** Writing a field changes no field apart from it. */
  lemma Frame(number: nat, k: nat, n: nat, v: nat, k': nat, n': nat)
    requires v < Pow2(n) && Apart(k, n, k', n')
    ensures WithField(number, k, n, v) >= 0
    ensures Field(WithField(number, k, n, v), k', n') == Field(number, k', n')
  {
    WithFieldParts(number, k, n, v);
    var written := WithField(number, k, n, v);
    if k' >= k + n {
      FieldAbove(number, k, n, k', n');
      FieldAbove(written, k, n, k', n');
    } else {
      FieldBelow(number, k, k', n');
      FieldBelow(written, k, k', n');
    }
  }

  /** What was written is read back. */
  lemma RoundTrip(number: nat, k: nat, n: nat, v: nat)
    requires v < Pow2(n)
    ensures WithField(number, k, n, v) >= 0 && Field(WithField(number, k, n, v), k, n) == v
  {
    WithFieldParts(number, k, n, v);
  }

  /** Two fields apart from each other can be written in either order. */
  lemma WritesCommute(number: nat, k: nat, n: nat, v: nat, k': nat, n': nat, v': nat)
    requires v < Pow2(n) && v' < Pow2(n') && Apart(k, n, k', n')
    ensures WithField(number, k, n, v) >= 0 && WithField(number, k', n', v') >= 0
    ensures WithField(WithField(number, k, n, v), k', n', v') == WithField(WithField(number, k', n', v'), k, n, v)
  {
    Frame(number, k, n, v, k', n');
    Frame(number, k', n', v', k, n);
  }

  /** The last write of a field wins. */
  lemma LastWriteWins(number: nat, k: nat, n: nat, v: nat, w: nat)
    requires v < Pow2(n)
    ensures WithField(number, k, n, v) >= 0
    ensures WithField(WithField(number, k, n, v), k, n, w) == WithField(number, k, n, w)
  {
    RoundTrip(number, k, n, v);
  }

  lemma Shifted(number: nat, k: nat, b: nat)
    ensures number / Pow2(k + b) == number / Pow2(k) / Pow2(b)
  {
    Pow2Sum(k, b);
    CutTwice(number, Pow2(k), Pow2(b));
  }

  /** A field of a + b bits is one of a bits above one of b bits. */
  lemma SplitField(number: nat, k: nat, a: nat, b: nat)
    ensures Field(number, k, a + b) == Field(number, k + b, a) * Pow2(b) + Field(number, k, b)
  {
    Shifted(number, k, b);
    assert Pow2(a + b) == Pow2(b) * Pow2(a) by { Pow2Sum(b, a); }
    SplitRemainder(number / Pow2(k), Pow2(b), Pow2(a), Pow2(a + b));
  }

  lemma SplitWrite(number: nat, k: nat, a: nat, b: nat, v1: nat, v0: nat)
    requires v1 < Pow2(a)
    ensures WithField(number, k + b, a, v1) >= 0
    ensures WithField(WithField(number, k + b, a, v1), k, b, v0) == WithField(number, k, a + b, v1 * Pow2(b) + v0)
  {
    Frame(number, k + b, a, v1, k, b);
    SplitField(number, k, a, b);
    Pow2Sum(b, k);
    JoinProducts(Field(number, k + b, a), Field(number, k, b), Pow2(b), Pow2(k));
    JoinProducts(v1, v0, Pow2(b), Pow2(k));
  }

  lemma JoinProducts(x: int, y: int, p: int, q: int)
    ensures (x * p + y) * q == x * (p * q) + y * q
  {
    Distribute(x * p, y, q);
    Associate(x, p, q);
  }

  // ---------- Bytes ----------

  newtype byte = x: int | 0 <= x < 256

  lemma EightBits()
    ensures Pow2(8) == 256
  {
  }

  function Num(s: seq<byte>): nat {
    if s == [] then 0 else Num(s[..|s| - 1]) * 256 + s[|s| - 1] as int
  }

  /** The bytes from position j on weigh less than a unit of those before. */
  lemma {:induction false} NumPrefix(s: seq<byte>, j: nat)
    requires j <= |s|
    ensures Num(s) / Pow2(8 * (|s| - j)) == Num(s[..j])
  {
    var m := |s| - j;
    if m == 0 {
      assert s[..j] == s;
    } else {
      var front := s[..|s| - 1];
      NumPrefix(front, j);
      assert front[..j] == s[..j];
      Pow2Sum(8, 8 * (m - 1));
      Pow2Grows(0, 8 * (m - 1));
      EightBits();
      Quotient(Num(s), 256, Num(front), s[|s| - 1] as int);
      CutTwice(Num(s), 256, Pow2(8 * (m - 1)));
    }
  }

  /** The number and the length together determine the bytes. */
  lemma {:induction false} NumDetermines(s: seq<byte>, t: seq<byte>)
    requires |s| == |t| && Num(s) == Num(t)
    ensures s == t
  {
    if s != [] {
      var last := |s| - 1;
      Quotient(Num(s), 256, Num(s[..last]), s[last] as int);
      Quotient(Num(t), 256, Num(t[..last]), t[last] as int);
      NumDetermines(s[..last], t[..last]);
      assert s == s[..last] + [s[last]] && t == t[..last] + [t[last]];
    }
  }

  /** The place of byte i: how many bits come below it. */
  function Below(s: seq<byte>, i: nat): nat
    requires i < |s|
  {
    8 * (|s| - 1 - i)
  }

  lemma ByteField(s: seq<byte>, i: nat, r: nat, n: nat)
    requires i < |s| && r + n <= 8
    ensures Field(Num(s), Below(s, i) + r, n) == Field(s[i] as int, r, n)
  {
    var m := Below(s, i);
    NumPrefix(s, i + 1);
    assert s[..i + 1][..i] == s[..i];
    var upper := Num(s) / Pow2(m);
    Pow2Sum(m, r);
    CutTwice(Num(s), Pow2(m), Pow2(r));
    assert Field(Num(s), m + r, n) == Field(upper, r, n);
    EightBits();
    FieldBelow(upper, 8, r, n);
    Quotient(upper, 256, Num(s[..i]), s[i] as int);
  }

  lemma {:induction false} ByteReplaced(s: seq<byte>, i: nat, b: byte)
    requires i < |s|
    ensures Num(s[i := b]) == Num(s) + (b as int - s[i] as int) * Pow2(Below(s, i))
  {
    var last := |s| - 1;
    if i == last {
      assert s[i := b][..last] == s[..last];
    } else {
      ByteReplaced(s[..last], i, b);
      assert s[i := b][..last] == s[..last][i := b];
      assert Below(s[..last], i) + 8 == Below(s, i);
      Pow2Sum(8, Below(s[..last], i));
      EightBits();
      var d, p := b as int - s[i] as int, Pow2(Below(s[..last], i));
      Associate(d, 256, p);
      Associate(d, p, 256);
      Distribute(Num(s[..last]), d * p, 256);
    }
  }

  /** Writing a field of one byte writes that field of the whole number. */
  lemma ByteWritten(s: seq<byte>, i: nat, r: nat, n: nat, v: nat, b: byte)
    requires i < |s| && r + n <= 8 && b as int == WithField(s[i] as int, r, n, v)
    ensures Num(s[i := b]) == WithField(Num(s), Below(s, i) + r, n, v)
  {
    ByteField(s, i, r, n);
    ByteReplaced(s, i, b);
    Pow2Sum(r, Below(s, i));
    var f, p, q := Field(s[i] as int, r, n), Pow2(r), Pow2(Below(s, i));
    Distribute(v * p, f * p, q);
    Associate(v, p, q);
    Associate(f, p, q);
  }
}
