/** The index files of a packet: one for each area with messages, and a personal one. */
module QwkIndex {
  import opened CStrings
  import opened Qwk
  import opened QwkLaws

  /** A record of an index file: where a message begins, and one byte of its area. */
  datatype IndexRecord = IndexRecord(block: nat, conf: nat)

  function RecordOf(e: NdxEntry): IndexRecord {
    IndexRecord(e.block, e.conf % 256)
  }

  /** The records of one area, in the order of the messages. */
  function OfConf(es: seq<NdxEntry>, conf: nat): seq<IndexRecord> {
    if es == [] then []
    else
      var e := es[|es| - 1];
      if e.conf == conf then OfConf(es[..|es| - 1], conf) + [RecordOf(e)] else OfConf(es[..|es| - 1], conf)
  }

  function AllRecords(es: seq<NdxEntry>): seq<IndexRecord> {
    if es == [] then [] else AllRecords(es[..|es| - 1]) + [RecordOf(es[|es| - 1])]
  }

  lemma ConfSnoc(es: seq<NdxEntry>, i: nat, conf: nat)
    requires i < |es|
    ensures OfConf(es[..i + 1], conf) ==
            if es[i].conf == conf then OfConf(es[..i], conf) + [RecordOf(es[i])] else OfConf(es[..i], conf)
  {
    assert es[..i + 1][..i] == es[..i];
  }

  method CountConf(es: seq<NdxEntry>, conf: nat) returns (n: nat)
    ensures n == |OfConf(es, conf)|
  {
    n := 0;
    for i := 0 to |es|
      invariant n == |OfConf(es[..i], conf)|
    {
      ConfSnoc(es, i, conf);
      if es[i].conf == conf {
        n := n + 1;
      }
    }
    assert es[..|es|] == es;
  }

  method IndexFile(es: seq<NdxEntry>, conf: nat) returns (f: seq<IndexRecord>)
    ensures f == OfConf(es, conf)
  {
    f := [];
    for i := 0 to |es|
      invariant f == OfConf(es[..i], conf)
    {
      ConfSnoc(es, i, conf);
      if es[i].conf == conf {
        f := f + [IndexRecord(es[i].block, conf % 256)];
      }
    }
    assert es[..|es|] == es;
  }

  /** write_ndx_files: the files by the number in their names, and PERSONAL.NDX. */
  method WriteNdxFiles(es: seq<NdxEntry>, areasUsed: seq<nat>, personal: seq<NdxEntry>)
    returns (files: map<nat, seq<IndexRecord>>, own: seq<IndexRecord>)
    ensures forall c :: c in files <==> c in areasUsed && OfConf(es, c) != []
    ensures forall c :: c in files ==> files[c] == OfConf(es, c)
    ensures own == AllRecords(personal)
  {
    hide OfConf;
    files := map[];
    for a := 0 to |areasUsed|
      invariant forall c :: c in files <==> c in areasUsed[..a] && OfConf(es, c) != []
      invariant forall c :: c in files ==> files[c] == OfConf(es, c)
    {
      var conf := areasUsed[a];
      var n := CountConf(es, conf);
      if n != 0 {
        var f := IndexFile(es, conf);
        files := files[conf := f];
      }
      assert areasUsed[..a + 1] == areasUsed[..a] + [conf];
    }
    assert areasUsed[..|areasUsed|] == areasUsed;
    own := PersonalFile(personal);
  }

  method PersonalFile(personal: seq<NdxEntry>) returns (own: seq<IndexRecord>)
    ensures own == AllRecords(personal)
  {
    own := [];
    for i := 0 to |personal|
      invariant own == AllRecords(personal[..i])
    {
      assert personal[..i + 1][..i] == personal[..i];
      own := own + [RecordOf(personal[i])];
    }
    assert personal[..|personal|] == personal;
  }

  /** Every entry is in its area's file, behind the entries of that area before it. */
  lemma {:induction false} EntryIsFiled(es: seq<NdxEntry>, k: nat)
    requires k < |es|
    ensures var f, j := OfConf(es, es[k].conf), |OfConf(es[..k], es[k].conf)|;
            j < |f| && f[j] == RecordOf(es[k])
    decreases |es|
  {
    var front := es[..|es| - 1];
    if k < |front| {
      EntryIsFiled(front, k);
      assert front[..k] == es[..k];
    }
  }

  lemma {:induction false} AreaIsUsed(areas: seq<Area>, k: nat)
    requires k < |PostsOf(areas)|
    ensures PostsOf(areas)[k].area in AreasUsed(areas)
    decreases |areas|
  {
    var front, a := areas[..|areas| - 1], areas[|areas| - 1];
    if k < |PostsOf(front)| {
      AreaIsUsed(front, k);
    } else {
      AreaOfPost(a.id, a.messages, k - |PostsOf(front)|);
    }
  }

  lemma {:induction false} AreaOfPost(id: nat, ms: seq<Message>, k: nat)
    requires k < |ms|
    ensures AreaPosts(id, ms)[k] == Post(id, ms[k])
    decreases |ms|
  {
    if k < |ms| - 1 {
      AreaOfPost(id, ms[..|ms| - 1], k);
    }
  }

  /** The first 4096 messages of a packet are in the index file of their area, in
      order, each with the block its record begins at and the low byte of its area. */
  lemma MessageIsIndexed(areas: seq<Area>, me: int, k: nat)
    requires k < |PostsOf(areas)| && k < 4096
    ensures var posts := PostsOf(areas);
            var es, file, conf := Indexed(Entries(posts)), FileOf(posts, me), posts[k].area;
            var f, j := OfConf(es, conf), |OfConf(es[..k], conf)|;
            conf in AreasUsed(areas) && j < |f| &&
            At(file, 128 * f[j].block, Record(posts[k], me)) && f[j].conf == conf % 256
  {
    hide PostsOf, FileOf, Record, At, Entries, AreasUsed, OfConf;
    var posts := PostsOf(areas);
    AreaIsUsed(areas, k);
    IndexPointsAtRecords(posts, k, me);
    EntryIsFiled(Indexed(Entries(posts)), k);
  }

  /** The personal index file has a record for each entry, in order. */
  lemma {:induction false} PersonalRecords(es: seq<NdxEntry>, k: nat)
    requires k < |es|
    ensures |AllRecords(es)| == |es|
    ensures AllRecords(es)[k].block == es[k].block && AllRecords(es)[k].conf == es[k].conf % 256
    decreases |es|
  {
    var n := |es| - 1;
    if n > 0 {
      PersonalRecords(es[..n], if k < n then k else 0);
    }
  }
}
