/**
 Variable length unsigned integers, WAP-230-WSP section 8.1.2: groups of seven bits, most significant
 group first, and the top bit of a byte set when another byte follows.  At most five bytes are used.
 */
module Uintvar {
  import opened Wrappers
  import opened Powers
  import opened BitFields
  import opened BitOperators

  const UINTVAR32_LEN := 5

  /** The k groups of a value above the lowest one, each with the mark that a byte follows. */
  function Leading(v: nat, k: nat): (s: seq<byte>)
    ensures |s| == k
  {
    if k == 0 then [] else [Marked(Shr(v, 7 * k))] + Leading(v, k - 1)
  }

  function Group(v: nat): (g: nat)
    ensures g < 128
  {
    v % 128
  }

  function Marked(v: nat): byte { (128 + Group(v)) as byte }

  /** The lowest n groups of a value. */
  function Grouped(v: nat, n: nat): (s: seq<byte>)
    requires n > 0
    ensures |s| == n
  {
    Leading(v, n - 1) + [Group(v) as byte]
  }

  /** From n on, the first number of groups that hold the value, or five. */
  function LengthFrom(v: nat, n: nat): (l: nat)
    requires n <= UINTVAR32_LEN
    ensures n <= l <= UINTVAR32_LEN
    ensures l < UINTVAR32_LEN ==> Shr(v, 7 * l) == 0
    ensures forall m :: n <= m < l ==> Shr(v, 7 * m) > 0
    decreases UINTVAR32_LEN - n
  {
    if n == UINTVAR32_LEN || Shr(v, 7 * n) == 0 then n else LengthFrom(v, n + 1)
  }

  function PackedLength(v: nat): nat { LengthFrom(v, 1) }
  function Packed(v: nat): seq<byte> { Grouped(v, PackedLength(v)) }

  datatype Reading = Reading(value: nat, end: nat)

  /** What reading at most n bytes yields, when val has been read before. */
  function Read(s: seq<byte>, n: nat, val: nat): Option<Reading> {
    if n == 0 || s == [] then None
    else
      var val' := val * 128 + Group(s[0] as int);
      if s[0] < 128 then Some(Reading(val', 1))
      else match Read(s[1..], n - 1, val')
           case None => None
           case Some(r) => Some(r.(end := r.end + 1))
  }

  function Unpacked(s: seq<byte>): Option<Reading> { Read(s, UINTVAR32_LEN, 0) }

  // ---------- The code ----------

  lemma GroupMeans(v: nat)
    ensures And(v, 0x7f) == Group(v) == Low(v, 7)
    ensures Or(0x80, Group(v)) == 128 + Group(v)
  {
    assert Pow2(7) == 128;
    AndMask(v, 7);
    LowMeans(v, 7);
    OrBelow(1, 7, Group(v));
    assert Shl(1, 7) == 128;
  }

  /** The top bit of a byte says whether another one follows. */
  lemma TopBit(b: byte)
    ensures And(b as int, 0x80) == 0 <==> b < 128
  {
    assert Pow2(7) == 128 && Shl(1, 7) == 128;
    Pieces(b as int, 7);
    ShrMeans(b as int, 7);
    AndByParts(Shr(b as int, 7), 1, Low(b as int, 7), 0, 7);
    ShlMeans(And(Shr(b as int, 7), 1), 7);
  }

  /** Fills a buffer from its end. */
  method Groups(value: nat) returns (pack: array<byte>, pos: nat)
    ensures fresh(pack) && pos < pack.Length == UINTVAR32_LEN && pack[pos..] == Packed(value)
  {
    hide And, Or, Shr, Low, Pow2, Leading;
    pack := new byte[UINTVAR32_LEN];
    GroupMeans(value);
    pack[UINTVAR32_LEN - 1] := And(value, 0x7f) as byte;
    var rest := Shr(value, 7);
    var i := UINTVAR32_LEN - 2;
    GroupedStep(value, 1);
    while rest > 0 && i >= 0
      invariant -1 <= i <= UINTVAR32_LEN - 2
      invariant rest == Shr(value, 7 * (UINTVAR32_LEN - 1 - i))
      invariant LengthFrom(value, UINTVAR32_LEN - 1 - i) == PackedLength(value)
      invariant pack[i + 1..] == Grouped(value, UINTVAR32_LEN - 1 - i)
      decreases i
    {
      GroupMeans(rest);
      ghost var tail := pack[i + 1..];
      pack[i] := Or(0x80, And(rest, 0x7f)) as byte;
      assert pack[i..] == [Marked(rest)] + tail;
      GroupedStep(value, UINTVAR32_LEN - i);
      ShrSum(value, 7 * (UINTVAR32_LEN - 1 - i), 7);
      rest := Shr(rest, 7);
      i := i - 1;
    }
    pos := i + 1;
  }

  /** Writes the packed value if it fits, and says how long it is, or -1. */
  method Pack(buf: array<byte>, len: int, value: nat) returns (r: int)
    requires len <= buf.Length && value < Pow2(64)
    modifies buf
    ensures len < |Packed(value)| ==> r == -1 && buf[..] == old(buf[..])
    ensures len >= |Packed(value)| ==>
              r == |Packed(value)| && buf[..] == Packed(value) + old(buf[..])[r..]
  {
    hide Packed;
    var pack, pos := Groups(value);
    var packlen := UINTVAR32_LEN - pos;
    if len < packlen {
      return -1;
    }
    forall j | 0 <= j < packlen {
      buf[j] := pack[pos + j];
    }
    assert buf[..packlen] == pack[pos..] && buf[packlen..] == old(buf[..])[packlen..];
    assert buf[..] == buf[..packlen] + buf[packlen..];
    return packlen;
  }

  method Unpack(buf: array<byte>, off: nat, len: int) returns (r: int, value: Option<nat>)
    requires off + (if len < 0 then 0 else len) <= buf.Length
    ensures var reading := Unpacked(buf[off..off + (if len < 0 then 0 else len)]);
            if reading == None then r == -1 && value == None
            else r == reading.value.end && value == Some(reading.value.value)
  {
    hide And, Or, Shl, Shr, Low, Pow2;
    ghost var s := buf[off..off + (if len < 0 then 0 else len)];
    var val, i := 0, 0;
    while i < UINTVAR32_LEN && i < len
      invariant 0 <= i <= UINTVAR32_LEN && (i <= len || i == 0) && i <= |s|
      invariant Unpacked(s) == Later(Read(s[i..], UINTVAR32_LEN - i, val), i)
    {
      assert s[i..][0] == buf[off + i] && s[i..][1..] == s[i + 1..];
      GroupMeans(buf[off + i] as int);
      TopBit(buf[off + i]);
      JoinGroup(val, Group(buf[off + i] as int));
      val := Or(Shl(val, 7), And(buf[off + i] as int, 0x7f));
      if And(buf[off + i] as int, 0x80) == 0 {
        return i + 1, Some(val);
      }
      i := i + 1;
    }
    return -1, None;
  }

  lemma JoinGroup(val: nat, g: nat)
    requires g < 128
    ensures Or(Shl(val, 7), g) == val * 128 + g
  {
    assert Pow2(7) == 128;
    OrBelow(val, 7, g);
    ShlMeans(val, 7);
  }

  ghost function Later(reading: Option<Reading>, i: nat): Option<Reading> {
    match reading
    case None => None
    case Some(r) => Some(r.(end := r.end + i))
  }

  // ---------- What packing and unpacking are to each other ----------

  /** Seven bits more of a value are one group more. */
  lemma NextGroup(v: nat, k: nat)
    ensures Shr(v, 7 * k) == Shr(v, 7 * (k + 1)) * 128 + Group(Shr(v, 7 * k))
  {
    assert 7 * (k + 1) == 7 * k + 7;
    ShrSum(v, 7 * k, 7);
    ShrMeans(Shr(v, 7 * k), 7);
    assert Pow2(7) == 128;
  }

  /** Reading n groups that start at group n - 1 of a value gives the value up to there. */
  lemma {:induction false} ReadGrouped(v: nat, n: nat, fuel: nat, rest: seq<byte>)
    requires 0 < n <= fuel
    ensures Read(Grouped(v, n) + rest, fuel, Shr(v, 7 * n)) == Some(Reading(v, n))
  {
    hide Shr;
    var s := Grouped(v, n) + rest;
    NextGroup(v, n - 1);
    if n == 1 {
      assert Shr(v, 0) == v by { ShrMeans(v, 0); }
    } else {
      assert s[1..] == Grouped(v, n - 1) + rest;
      assert Group(s[0] as int) == Group(Shr(v, 7 * (n - 1)));
      ReadGrouped(v, n - 1, fuel - 1, rest);
    }
  }

  lemma GroupedStep(v: nat, n: nat)
    requires n > 0
    ensures Grouped(v, n) == if n == 1 then [Group(v) as byte] else [Marked(Shr(v, 7 * (n - 1)))] + Grouped(v, n - 1)
    ensures Shr(v, 0) == v
  {
    ShrMeans(v, 0);
  }

  /** Reading stops at a value whose groups are what was read. */
  lemma {:induction false} ReadMeans(s: seq<byte>, fuel: nat, val: nat)
    ensures Read(s, fuel, val).Some? ==>
              var r := Read(s, fuel, val).value;
              && 0 < r.end <= fuel && r.end <= |s|
              && s[..r.end] == Grouped(r.value, r.end) && Shr(r.value, 7 * r.end) == val
  {
    hide Shr, LengthFrom, Grouped, Leading;
    if Read(s, fuel, val).Some? {
      var r := Read(s, fuel, val).value;
      var val' := val * 128 + Group(s[0] as int);
      NextGroup(r.value, r.end - 1);
      GroupedStep(r.value, r.end);
      if s[0] < 128 {
        assert s[..1] == [s[0]];
      } else {
        ReadMeans(s[1..], fuel - 1, val');
        assert s[..r.end] == [s[0]] + s[1..][..r.end - 1];
      }
    }
  }

  lemma {:induction false} LeadingLow(v: nat, m: nat, k: nat)
    requires 7 * k + 7 <= m
    ensures Leading(Low(v, m), k) == Leading(v, k)
  {
    if k > 0 {
      LeadingLow(v, m, k - 1);
      GroupLow(v, m, 7 * k);
    }
  }

  lemma GroupLow(v: nat, m: nat, j: nat)
    requires j + 7 <= m
    ensures Group(Shr(Low(v, m), j)) == Group(Shr(v, j))
  {
    LowSum(v, j, m - j);
    Pieces(v, j);
    LowOfParts(Low(Shr(v, j), m - j), Low(v, j), j);
    LowLow(Shr(v, j), 7, m - j);
    LowMeans(Shr(v, j), 7);
    LowMeans(Low(Shr(v, j), m - j), 7);
    assert Pow2(7) == 128;
  }

  /** A value is read back up to its lowest 35 bits, and reading ends where the value does. */
  lemma UnpackPacked(v: nat, rest: seq<byte>)
    ensures Unpacked(Packed(v) + rest) == Some(Reading(v % Pow2(35), |Packed(v)|))
  {
    hide Shr, Low;
    var n := PackedLength(v);
    var w := Low(v, 35);
    LowMeans(v, 35);
    LeadingLow(v, 35, n - 1);
    GroupLow(v, 35, 0);
    assert Shr(w, 0) == w && Shr(v, 0) == v by {
      ShrMeans(w, 0);
      ShrMeans(v, 0);
    }
    assert Packed(v) == Grouped(w, n);
    assert Shr(w, 7 * n) == 0 by { NothingAbove(v, n); }
    ReadGrouped(w, n, UINTVAR32_LEN, rest);
  }

  lemma NothingAbove(v: nat, n: nat)
    requires n == PackedLength(v)
    ensures Shr(Low(v, 35), 7 * n) == 0
  {
    hide Shr, Shl, LengthFrom, Pow2;
    var k := 35 - 7 * n;
    LowSum(v, 7 * n, k);
    Pieces(v, 7 * n);
    LowOfParts(Low(Shr(v, 7 * n), k), Low(v, 7 * n), 7 * n);
    if n < UINTVAR32_LEN {
      LowMeans(0, k);
      Quotient(0, Pow2(k), 0, 0);
    }
  }

  /** The whole value comes back exactly if it has no more than 35 bits. */
  lemma RoundTripExact(v: nat, rest: seq<byte>)
    ensures Unpacked(Packed(v) + rest) == Some(Reading(v, |Packed(v)|)) <==> v < Pow2(35)
  {
    UnpackPacked(v, rest);
    if v < Pow2(35) {
      Quotient(v, Pow2(35), 0, v);
    }
  }

  /** No packed value begins another one. */
  lemma PrefixFree(v: nat, w: nat)
    requires Packed(v) <= Packed(w)
    ensures Packed(v) == Packed(w) && v % Pow2(35) == w % Pow2(35)
  {
    var rest := Packed(w)[|Packed(v)|..];
    assert Packed(w) == Packed(v) + rest && Packed(w) == Packed(w) + [];
    UnpackPacked(v, rest);
    UnpackPacked(w, []);
  }

  /** Of all bytes that read as a value, the packed value is the shortest, and the only one not padded. */
  lemma PackedShortest(s: seq<byte>)
    requires Unpacked(s).Some?
    ensures var r := Unpacked(s).value;
            && |Packed(r.value)| <= r.end <= |s|
            && (s[..r.end] == Packed(r.value) <==> r.end == 1 || s[0] != 0x80)
  {
    hide Shr;
    var r := Unpacked(s).value;
    ReadMeans(s, UINTVAR32_LEN, 0);
    var n := PackedLength(r.value);
    assert n <= r.end;
    if r.end > 1 {
      NextGroup(r.value, r.end - 1);
      assert s[0] == s[..r.end][0] == Marked(Shr(r.value, 7 * (r.end - 1)));
      var top := Shr(r.value, 7 * (r.end - 1));
      assert s[0] == 0x80 <==> top == 0;
      if top == 0 {
        assert n != r.end;
      } else {
        if n < r.end {
          ShrSum(r.value, 7 * n, 7 * (r.end - 1 - n));
          ShrMeans(0, 7 * (r.end - 1 - n));
          Quotient(0, Pow2(7 * (r.end - 1 - n)), 0, 0);
          assert false;
        }
      }
    }
  }

  // ---------- The format ----------

  /** The number with the digits of val and then, to base 128, the lower seven bits of each byte. */
  function Continued(val: nat, s: seq<byte>): nat {
    if s == [] then val else Continued(val, s[..|s| - 1]) * 128 + s[|s| - 1] as nat % 128
  }

  lemma {:induction false} ContinuedFront(val: nat, s: seq<byte>)
    requires s != []
    ensures Continued(val, s) == Continued(val * 128 + s[0] as nat % 128, s[1..])
  {
    var n := |s| - 1;
    if n == 0 {
      assert s[..0] == [];
    } else {
      ContinuedFront(val, s[..n]);
      assert s[..n][1..] == s[1..][..n - 1];
    }
  }

  /** All bytes but the last have the mark that another one follows. */
  predicate Terminated(s: seq<byte>) {
    s != [] && s[|s| - 1] < 128 && forall i :: 0 <= i < |s| - 1 ==> s[i] >= 128
  }

  lemma {:induction false} ReadExact(s: seq<byte>, n: nat, val: nat)
    ensures Read(s, n, val).Some? <==> exists i :: 0 <= i < n && i < |s| && s[i] < 128
    ensures Read(s, n, val).Some? ==>
              var r := Read(s, n, val).value;
              r.end <= n && r.end <= |s| && Terminated(s[..r.end]) && r.value == Continued(val, s[..r.end])
  {
    if n > 0 && s != [] {
      var val' := val * 128 + Group(s[0] as int);
      if s[0] < 128 {
        assert s[..1] == [s[0]] && Continued(val, []) == val;
      } else {
        ReadExact(s[1..], n - 1, val');
        forall i | 0 <= i < n && i < |s| && s[i] < 128 ensures s[1..][i - 1] < 128 {
        }
        forall i | 0 <= i < n - 1 && i < |s| - 1 && s[1..][i] < 128 ensures s[i + 1] < 128 {
        }
        if Read(s, n, val).Some? {
          var end := Read(s, n, val).value.end;
          assert s[..end][1..] == s[1..][..end - 1];
          ContinuedFront(val, s[..end]);
        }
      }
    }
  }

  /** A value is read exactly if one of the first five bytes has no mark; it ends there, padded or not. */
  lemma UnpackedExact(s: seq<byte>)
    ensures Unpacked(s).Some? <==> exists i :: 0 <= i < UINTVAR32_LEN && i < |s| && s[i] < 128
    ensures Unpacked(s).Some? ==>
              var r := Unpacked(s).value;
              r.end <= |s| && Terminated(s[..r.end]) && r.value == Continued(0, s[..r.end])
  {
    ReadExact(s, UINTVAR32_LEN, 0);
  }

  /** The packed value: marks on all bytes but the last, and groups that make up the lowest 35 bits. */
  lemma PackedExact(v: nat)
    ensures Terminated(Packed(v)) && |Packed(v)| <= UINTVAR32_LEN && Continued(0, Packed(v)) == v % Pow2(35)
  {
    hide Unpacked, Continued, Terminated;
    UnpackPacked(v, []);
    UnpackedExact(Packed(v) + []);
    assert (Packed(v) + [])[..|Packed(v)|] == Packed(v);
  }

  // ---------- Streams of values ----------

  function Stream(vs: seq<nat>): seq<byte> {
    if vs == [] then [] else Packed(vs[0]) + Stream(vs[1..])
  }

  /** One value at a position of a string, and where the next one begins. */
  function UnpackedAt(s: seq<byte>, pos: int): Option<Reading> {
    if !(0 <= pos < |s|) then None
    else match Unpacked(s[pos..])
         case None => None
         case Some(r) => Some(r.(end := pos + r.end))
  }

  /** Reads until nothing more can be read, feeding each position to the next call. */
  function ReadAll(s: seq<byte>, pos: int): (seq<nat>, int)
    decreases |s| - pos
  {
    match UnpackedAt(s, pos)
    case None => ([], pos)
    case Some(r) =>
      ReadMeans(s[pos..], UINTVAR32_LEN, 0);
      var (vs, end) := ReadAll(s, r.end);
      ([r.value] + vs, end)
  }

  lemma {:induction false} StreamReadBack(before: seq<byte>, vs: seq<nat>)
    requires forall i :: 0 <= i < |vs| ==> vs[i] < Pow2(35)
    ensures ReadAll(before + Stream(vs), |before|) == (vs, |before + Stream(vs)|)
    decreases vs
  {
    hide Pow2, Unpacked, Leading, LengthFrom;
    var s := before + Stream(vs);
    if vs == [] {
      assert s == before;
    } else {
      var rest := Stream(vs[1..]);
      assert s[|before|..] == Packed(vs[0]) + rest;
      RoundTripExact(vs[0], rest);
      assert s == (before + Packed(vs[0])) + rest;
      StreamReadBack(before + Packed(vs[0]), vs[1..]);
      assert vs == [vs[0]] + vs[1..];
    }
  }
}
