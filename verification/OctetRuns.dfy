/** A list of values appended to an octet string one by one, and read back one by one. */
module OctetRuns {
  import opened Wrappers
  import opened Powers
  import opened BitFields
  import opened Uintvar
  import opened OctetString

  method AppendAll(o: Octstr, vs: seq<nat>)
    requires o.Valid() && forall i :: 0 <= i < |vs| ==> vs[i] < Pow2(64)
    modifies o, o.s
    ensures o.Valid() && o.Contents() == old(o.Contents()) + Stream(vs) && (o.s == old(o.s) || fresh(o.s))
  {
    hide Packed, Pow2;
    for i := 0 to |vs|
      invariant o.Valid() && (o.s == old(o.s) || fresh(o.s))
      invariant o.Contents() + Stream(vs[i..]) == old(o.Contents()) + Stream(vs)
    {
      ghost var before := o.Contents();
      var _ := o.AppendUintvar(vs[i]);
      assert vs[i..][1..] == vs[i + 1..];
      assert before + Packed(vs[i]) + Stream(vs[i + 1..]) == before + (Packed(vs[i]) + Stream(vs[i + 1..]));
    }
    assert Stream(vs[|vs|..]) == [];
  }

  /** Feeds each position to the next call until nothing more can be read. */
  method ReadFrom(o: Octstr, pos: nat) returns (vs: seq<nat>, end: int)
    requires o.Valid()
    ensures (vs, end) == ReadAll(o.Contents(), pos)
  {
    ghost var s := o.Contents();
    vs, end := [], pos;
    assert [] + ReadAll(s, pos).0 == ReadAll(s, pos).0;
    while true
      invariant ReadAll(s, pos) == (vs + ReadAll(s, end).0, ReadAll(s, end).1)
      invariant end >= 0
      decreases |s| - end
    {
      ghost var later := ReadAll(s, end);
      var next, value := o.UnpackUintvar(end);
      if value == None {
        assert later == ([], end) && vs + [] == vs;
        return;
      }
      ReadMeans(s[end..], UINTVAR32_LEN, 0);
      assert later.0 == [value.value] + ReadAll(s, next).0;
      assert vs + later.0 == (vs + [value.value]) + ReadAll(s, next).0;
      vs, end := vs + [value.value], next;
    }
  }

  /** Whatever the string held, the values are read back from where they were appended, up to its end. */
  method AppendAndRead(o: Octstr, vs: seq<nat>) returns (read: seq<nat>, end: int)
    requires o.Valid() && forall i :: 0 <= i < |vs| ==> vs[i] < Pow2(35)
    modifies o, o.s
    ensures o.Valid() && o.Contents() == old(o.Contents()) + Stream(vs)
    ensures read == vs && end == o.len
  {
    hide Pow2, ReadAll, Stream;
    Pow2Grows(35, 64);
    ghost var before := o.Contents();
    var pos := o.len;
    AppendAll(o, vs);
    StreamReadBack(before, vs);
    read, end := ReadFrom(o, pos);
  }
}
