/** A concrete run of the publish protocol of the gzip cache in which wrong content is served: a source
    that is changed, read and restored with its old modification time passes the second inspection. */
module RestoredSource {
  import opened Basics
  import opened Gzip
  import opened Identity
  import opened PublishProtocol
  import opened PublishProgress

  function Zeros(): (data: Bytes) { seq(1024, _ => 0) }
  function Ones(): (data: Bytes) { seq(1024, _ => 1) }

  /** A code with one short word, for a kilobyte of zeros. */
  function Pack(data: Bytes): (code: Bytes) { if data == Zeros() then [0] else [1] + data }

  function Unpack(code: Bytes): (data: Option<Bytes>) {
    if code == [0] then Some(Zeros()) else if code != [] && code[0] == 1 then Some(code[1..]) else None
  }

  lemma PackRoundTrip(data: Bytes)
    ensures Unpack([] + Pack(data)) == Some(data)
  {
    assert [] + Pack(data) == Pack(data);
    assert ([1] + data)[1..] == data;
  }

  function Packer(): (c: Codec) {
    Codec((_, _) => [], chunks => Pack(Flatten(chunks)), code => Unpack(code), (v, _) => v)
  }

  lemma {:induction false} PackerEmitsNothing(chunks: seq<Bytes>)
    ensures Emitted(Packer(), chunks) == []
    decreases |chunks|
  {
    if chunks != [] {
      PackerEmitsNothing(chunks[..|chunks| - 1]);
    }
  }

  lemma PackerIsLawful()
    ensures Lawful(Packer())
  {
    var c := Packer();
    forall chunks: seq<Bytes> ensures c.inflate(Emitted(c, chunks) + c.finish(chunks)) == Some(Flatten(chunks)) {
      PackerEmitsNothing(chunks);
      PackRoundTrip(Flatten(chunks));
    }
  }

  function File(): (id: SourceId) { SourceId("maps/a.bsp", 1024, 7, 1) }

  /** One file, of ones. */
  function Example(): (w: World) {
    World(map[File() := Ones()], id => SourceIdentity(id), id => SkipIdentity(id, 0x100_0000),
          id => Key(SourceIdentity(id)), Packer(), data => Gunzip(Packer(), data), 0x100_0000)
  }

  lemma ExampleIsWellFormed()
    ensures WellFormed(Example())
  {
    PackerIsLawful();
  }

  lemma OneChunk()
    ensures Flatten([Zeros()]) == Zeros() && |Written(Example(), [Zeros()])| == 19
  {
    FlattenSnoc([], Zeros());
    assert [] + [Zeros()] == [Zeros()] && [] + Zeros() == Zeros();
    PackerEmitsNothing([Zeros()]);
  }

  /** The file of ones is overwritten with zeros, read, and restored: zeros are served for it. */
  lemma ZerosServedForOnes() returns (s: State, s': State)
    ensures WellFormed(Example()) && Init(Example(), s) && Reaches(Example(), s, s')
    ensures 0 in s'.lookups && s'.lookups[0].Sending? && s'.lookups[0].id == File()
    ensures Gunzip(Packer(), s'.lookups[0].data) == Some(Zeros())
    ensures Example().content[File()] == Ones() != Zeros()
  {
    var w := Example();
    ExampleIsWellFormed();
    OneChunk();
    s := State(Disk(map[], map[], map[], map[], map[], map[]), Idle, map[]);
    s' := RestoredSourceIsServed(w, s, File(), File().(modified := 8), [Zeros()], 0);
    WrittenReadsBack(w, [Zeros()]);
    assert Ones()[0] != Zeros()[0];
  }
}
