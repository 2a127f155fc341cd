/** The copy phase: one server-side copy per diff entry, each failure caught
    at the item and turned into a value, then the outcomes split into the
    failed and the copied. The storage service's copy call is a parameter
    (`copy`), an arbitrary function from request to result. */
module CopyPhase {

  import opened Config
  import opened DiffEngine

  /** Whether the copy keeps the source's metadata or replaces it with the
      request's headers. */
  datatype MetadataDirective = KeepMetadata | ReplaceMetadata

  /** The copy call for one object: the same name in both buckets, the
      metadata replaced, the chosen ACL and storage class, and a condition
      that the source has been modified since the listed timestamp. */
  datatype CopyRequest = CopyRequest(
    srcBucket: string,
    srcName: string,
    dstBucket: string,
    dstName: string,
    directive: MetadataDirective,
    acl: string,
    ifModifiedSince: int,
    storageClass: string
  )

  /** What the service's copy call did: returned, or raised an error. */
  datatype CopyResult = Done | Raised(error: string)

  /** The outcome recorded for one diff entry. */
  datatype Outcome = Copied(key: ObjectKey) | Failed(key: ObjectKey, error: string)

  /** The failed outcomes and the copied ones, each in input order. */
  datatype Split = Split(failed: seq<Outcome>, copied: seq<Outcome>)

  function Request(s: Settings, key: ObjectKey): CopyRequest
  {
    CopyRequest(s.src, key.name, s.dst, key.name, ReplaceMetadata, s.acl, key.lastModified, s.storageClass)
  }

  /** Copies one object; an error raised by the call becomes a Failed
      outcome carrying it instead of escaping. */
  function CopyOne(s: Settings, copy: CopyRequest -> CopyResult, key: ObjectKey): (o: Outcome)
    ensures o.key == key
    ensures o.Failed? <==> copy(Request(s, key)).Raised?
    ensures o.Failed? ==> o.error == copy(Request(s, key)).error
  {
    match copy(Request(s, key))
    case Done => Copied(key)
    case Raised(e) => Failed(key, e)
  }

  /** The copy phase run item by item: outcome i belongs to key i. The
      order of completion does not matter to the result. */
  function CopyAll(s: Settings, copy: CopyRequest -> CopyResult, keys: seq<ObjectKey>): (os: seq<Outcome>)
    ensures |os| == |keys|
    ensures forall i :: 0 <= i < |keys| ==> os[i] == CopyOne(s, copy, keys[i])
  {
    seq(|keys|, i requires 0 <= i < |keys| => CopyOne(s, copy, keys[i]))
  }

  /** Failures are isolated: an item's outcome depends on its own copy call
      only, whatever the service does with every other item. */
  lemma OutcomeIgnoresOtherItems(s: Settings, copy: CopyRequest -> CopyResult,
                                 copy': CopyRequest -> CopyResult, keys: seq<ObjectKey>, i: nat)
    requires i < |keys|
    requires copy(Request(s, keys[i])) == copy'(Request(s, keys[i]))
    ensures CopyAll(s, copy, keys)[i] == CopyAll(s, copy', keys)[i]
  {
  }

  /** Splits outcomes by tag, keeping order on each side. */
  function Partition(os: seq<Outcome>): (p: Split)
    ensures forall o :: o in p.failed ==> o.Failed?
    ensures forall o :: o in p.copied ==> o.Copied?
    ensures multiset(p.failed) + multiset(p.copied) == multiset(os)
  {
    if os == [] then Split([], [])
    else
      var rest := Partition(os[1..]);
      assert os == [os[0]] + os[1..];
      if os[0].Failed? then Split([os[0]] + rest.failed, rest.copied)
      else Split(rest.failed, [os[0]] + rest.copied)
  }

  /** The split loses and invents nothing: the two sides add up to the
      whole, and each outcome lands on exactly one side, the one its tag
      names. */
  lemma PartitionIsExact(os: seq<Outcome>)
    ensures |Partition(os).failed| + |Partition(os).copied| == |os|
    ensures forall o :: o in os ==> (o in Partition(os).failed <==> o.Failed?)
    ensures forall o :: o in os ==> (o in Partition(os).copied <==> o.Copied?)
  {
    var p := Partition(os);
    assert |multiset(p.failed) + multiset(p.copied)| == |multiset(os)|;
    forall o | o in os
      ensures o in p.failed <==> o.Failed?
      ensures o in p.copied <==> o.Copied?
    {
      assert o in multiset(p.failed) + multiset(p.copied);
      if o.Failed? {
        assert o !in p.copied;
      } else {
        assert o !in p.failed;
      }
    }
  }

  /** The number of keys whose copy call raised. */
  function CountRaised(s: Settings, copy: CopyRequest -> CopyResult, keys: seq<ObjectKey>): nat
  {
    if keys == [] then 0
    else (if copy(Request(s, keys[0])).Raised? then 1 else 0) + CountRaised(s, copy, keys[1..])
  }

  /** After the copy phase, the failed side holds exactly one outcome per
      raising call and the copied side one per call that returned. */
  lemma {:induction false} FailedCountsRaisedCalls(s: Settings, copy: CopyRequest -> CopyResult,
                                                   keys: seq<ObjectKey>)
    ensures |Partition(CopyAll(s, copy, keys)).failed| == CountRaised(s, copy, keys)
    ensures |Partition(CopyAll(s, copy, keys)).copied| == |keys| - CountRaised(s, copy, keys)
  {
    PartitionIsExact(CopyAll(s, copy, keys));
    if keys != [] {
      FailedCountsRaisedCalls(s, copy, keys[1..]);
      assert CopyAll(s, copy, keys)[1..] == CopyAll(s, copy, keys[1..]);
    }
  }

  /** `order` lists every key of `d` exactly once. */
  predicate Enumerates(order: seq<string>, d: Snapshot)
  {
    && |order| == |d|
    && (forall i :: 0 <= i < |order| ==> order[i] in d)
    && (forall n :: n in d ==> n in order)
    && (forall i, j :: 0 <= i < j < |order| ==> order[i] != order[j])
  }

  /** Some enumeration of the diff's names; the values in this order are
      what the copy phase is handed. Which order is immaterial. */
  method Names(d: Snapshot) returns (order: seq<string>)
    ensures Enumerates(order, d)
  {
    order := [];
    var rest := d.Keys;
    while rest != {}
      invariant rest <= d.Keys
      invariant |order| + |rest| == |d|
      invariant forall i :: 0 <= i < |order| ==> order[i] in d && order[i] !in rest
      invariant forall n :: n in d ==> n in order || n in rest
      invariant forall i, j :: 0 <= i < j < |order| ==> order[i] != order[j]
      decreases |rest|
    {
      var n :| n in rest;
      order := order + [n];
      rest := rest - {n};
    }
  }

  /** The diff's values in the given order. */
  function ValuesIn(d: Snapshot, order: seq<string>): (vs: seq<ObjectKey>)
    requires forall i :: 0 <= i < |order| ==> order[i] in d
    ensures |vs| == |order|
    ensures forall i :: 0 <= i < |order| ==> vs[i] == d[order[i]]
  {
    seq(|order|, i requires 0 <= i < |order| => d[order[i]])
  }

  /** The diff's values in an enumeration of its names are exactly its
      values: as many as there are entries, none left out. */
  lemma {:induction false} ValuesAreDiffValues(d: Snapshot, order: seq<string>)
    requires Enumerates(order, d)
    ensures |ValuesIn(d, order)| == |d|
    ensures forall n :: n in d ==> d[n] in ValuesIn(d, order)
  {
    forall n | n in d
      ensures d[n] in ValuesIn(d, order)
    {
      var i :| 0 <= i < |order| && order[i] == n;
      assert ValuesIn(d, order)[i] == d[n];
    }
  }

  /** The copy requests issued for `keys`, one per key, in order. */
  function Requests(s: Settings, keys: seq<ObjectKey>): (rs: seq<CopyRequest>)
  {
    seq(|keys|, i requires 0 <= i < |keys| => Request(s, keys[i]))
  }

  /** Over an enumeration of a well-formed diff, the copy phase issues one
      request per diff entry: every entry's request is issued, every issued
      request is the one for the diff entry named by its target, and no two
      requests write the same destination object. */
  lemma {:induction false} EachDiffEntryCopiedOnce(s: Settings, d: Snapshot, order: seq<string>)
    requires Enumerates(order, d)
    requires WellFormed(d)
    ensures |Requests(s, ValuesIn(d, order))| == |d|
    ensures forall n :: n in d ==> Request(s, d[n]) in Requests(s, ValuesIn(d, order))
    ensures forall q :: q in Requests(s, ValuesIn(d, order)) ==>
              q.dstName in d && q == Request(s, d[q.dstName])
    ensures forall i, j :: 0 <= i < j < |Requests(s, ValuesIn(d, order))| ==>
              Requests(s, ValuesIn(d, order))[i].dstName != Requests(s, ValuesIn(d, order))[j].dstName
  {
    var vs := ValuesIn(d, order);
    var rs := Requests(s, vs);
    ValuesAreDiffValues(d, order);
    forall n | n in d
      ensures Request(s, d[n]) in rs
    {
      var i :| 0 <= i < |vs| && vs[i] == d[n];
      assert rs[i] == Request(s, d[n]);
    }
    forall q | q in rs
      ensures q.dstName in d && q == Request(s, d[q.dstName])
    {
      var i :| 0 <= i < |rs| && rs[i] == q;
      assert vs[i] == d[order[i]] && q.dstName == order[i];
    }
    forall i, j | 0 <= i < j < |rs|
      ensures rs[i].dstName != rs[j].dstName
    {
      assert rs[i].dstName == order[i] && rs[j].dstName == order[j];
    }
  }
}
