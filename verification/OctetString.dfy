/** Strings of octets in a growing buffer, with the packed integers appended to and read from them. */
module OctetString {
  import opened Wrappers
  import opened Powers
  import opened BitFields
  import opened Uintvar

  const BLOCK := 1024

  /** The next multiple of the block size above len. */
  function CalcSize(len: nat): (size: nat)
    ensures len < size <= len + BLOCK && size % BLOCK == 0
  {
    len + BLOCK - len % BLOCK
  }

  class Octstr {
    var s: array<byte>
    var len: nat
    var size: nat

    /** There is room for a terminator behind the octets, and one is there if there are octets. */
    ghost predicate Valid()
      reads this, s
    {
      size == s.Length && len < size && (len > 0 ==> s[len] == 0)
    }

    ghost function Contents(): (octets: seq<byte>)
      requires Valid()
      reads this, s
      ensures |octets| == len
    {
      s[..len]
    }

    constructor (octets: array<byte>, n: nat)
      requires n <= octets.Length
      ensures Valid() && Contents() == octets[..n] && fresh(s)
    {
      s := new byte[0];
      len, size := 0, 0;
      new;
      Grow(n);
      if n > 0 {
        CopyIn(octets, n);
      }
    }

    /** Copies n octets behind the present ones and terminates them. */
    method CopyIn(octets: array<byte>, n: nat)
      requires size == s.Length && len + n < size && n <= octets.Length && n > 0 && octets != s
      modifies s, this`len
      ensures Valid() && Contents() == old(s[..len]) + octets[..n]
    {
      forall i | 0 <= i < n {
        s[len + i] := octets[i];
      }
      s[len + n] := 0;
      len := len + n;
    }

    method Grow(n: nat)
      requires size == s.Length && len <= size
      modifies this`s, this`size
      ensures size == s.Length && size > n && size >= old(size) && (s == old(s) || fresh(s))
      ensures s[..old(size)] == old(s[..])
    {
      var wanted := CalcSize(n + 1);
      if wanted > size {
        var bigger := new byte[wanted];
        forall i | 0 <= i < size {
          bigger[i] := s[i];
        }
        s, size := bigger, wanted;
      }
    }

    method StrAppend(octets: array<byte>, n: nat)
      requires Valid() && n <= octets.Length && octets != s
      modifies this, s
      ensures Valid() && Contents() == old(Contents()) + octets[..n] && (s == old(s) || fresh(s))
    {
      if n > 0 {
        Grow(len + n);
        assert s[..len] == old(s[..])[..len];
        CopyIn(octets, n);
      }
    }

    method AppendUintvar(value: nat) returns (r: int)
      requires Valid() && value < Pow2(64)
      modifies this, s
      ensures Valid() && Contents() == old(Contents()) + Packed(value) && (s == old(s) || fresh(s))
      ensures r == |Packed(value)|
    {
      var buf := new byte[UINTVAR32_LEN];
      r := Pack(buf, UINTVAR32_LEN, value);
      assert buf[..r] == Packed(value);
      StrAppend(buf, r);
    }

    /** The position behind the value read, or -1; a negative position counts as one beyond the end. */
    method UnpackUintvar(pos: int) returns (r: int, value: Option<nat>)
      requires Valid()
      ensures var reading := UnpackedAt(Contents(), pos);
              if reading == None then r == -1 && value == None
              else r == reading.value.end && value == Some(reading.value.value)
    {
      if pos < 0 || pos >= len {
        return -1, None;
      }
      r, value := Unpack(s, pos, len - pos);
      assert s[pos..pos + (len - pos)] == Contents()[pos..];
      if r != -1 {
        r := pos + r;
      }
    }
  }
}
