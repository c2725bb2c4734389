/** A data set on its way from one host to another. */
module DataTransfer {
  import opened Wrappers
  import opened Bytes
  import opened D4Data
  import opened CodecByteOrder
  import opened CodecGroups
  import opened D4StreamMarshaller
  import opened D4StreamUnMarshaller

  /** Serializing a data set and deserializing the stream.  What is got is what was sent if and
      only if every length and count that is sent reads the same in the byte orders of both
      hosts, as it does when they are the same; `ok` is false when an assertion stops the
      sender. */
  method Transfer(g: Group, r: RGroup, big: bool, big2: bool) returns (ok: bool, got: Option<CheckedGroup>)
    requires TypedGroup(g) && DeclaredGroup(r) && FitsGroup(g, r) && FreshGroup(r) && Closed(g)
    ensures ok <==> SendableGroup(g)
    ensures ok ==> (got.Some? && Values(got.value) == Expected(g, big, big2) <==> CountsAgreeGroup(g, big, big2))
    ensures big == big2 ==> CountsAgreeGroup(g, big, big2)
  {
    GroupArrivesExact(g, r, [], big, big2);
    var m := new Marshaller(true, big);
    ok := m.SerializeGroup(g);
    if !ok { return false, None; }
    var um := new UnMarshaller(m.out, big2, big != big2);
    assert [] + EmitGroup(g, true, big) == EmitGroup(g, true, big) + [] == m.out;
    got := um.DeserializeGroup(r);
  }

  /** The checksums that go out are the same, and in the same order, whether or not the
      values are written. */
  method ChecksumsOnly(g: Group, big: bool) returns (ok: bool, full: seq<Byte>, sums: seq<Byte>)
    requires TypedGroup(g)
    ensures ok <==> SendableGroup(g)
    ensures ok ==> full == Stream(SentVars(g), true, big) && sums == Stream(SentVars(g), false, big)
  {
    var m := new Marshaller(true, big);
    ok := m.SerializeGroup(g);
    full := m.out;
    if !ok { return false, full, []; }
    var n := new Marshaller(false, big);
    ok := n.SerializeGroup(g);
    sums := n.out;
    GroupStream(g, true, big);
    GroupStream(g, false, big);
    assert [] + EmitGroup(g, true, big) == EmitGroup(g, true, big);
    assert [] + EmitGroup(g, false, big) == EmitGroup(g, false, big);
  }
}
