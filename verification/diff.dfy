/** The diff engine: which source objects must be copied, given name-keyed
    snapshots of both buckets, and how many copy workers that justifies. */
module DiffEngine {

  /** One listed object: its name and its last-modified time (in any fixed
      clock unit; only the order of two timestamps matters). */
  datatype ObjectKey = ObjectKey(name: string, lastModified: int)

  /** A bucket listing, keyed by object name. */
  type Snapshot = map<string, ObjectKey>

  /** A listing is well formed when every entry is filed under its own name,
      as building the map from the listing does. */
  predicate WellFormed(s: Snapshot)
  {
    forall n :: n in s ==> s[n].name == n
  }

  /** The copy policy for one source name: copy unless the destination holds
      the name with a strictly newer timestamp. Equal timestamps copy. */
  predicate NeedsCopy(src: Snapshot, dst: Snapshot, n: string)
    requires n in src
  {
    n !in dst || dst[n].lastModified <= src[n].lastModified
  }

  /** The source listing with every entry rejected whose destination
      counterpart is strictly newer. */
  function Diff(src: Snapshot, dst: Snapshot): (d: Snapshot)
    ensures forall n :: n in d <==> n in src && NeedsCopy(src, dst, n)
    ensures forall n :: n in d ==> d[n] == src[n]
  {
    map n | n in src && !(n in dst && dst[n].lastModified > src[n].lastModified) :: src[n]
  }

  /** `sub` is a sub-map of `m`: its keys are keys of `m`, bound to the same
      values. */
  predicate SubMap(sub: Snapshot, m: Snapshot)
  {
    forall n :: n in sub ==> n in m && sub[n] == m[n]
  }

  /** The diff only ever holds source entries, never destination ones, and
      keeps a well-formed listing well formed. */
  lemma DiffIsSourceSubMap(src: Snapshot, dst: Snapshot)
    ensures SubMap(Diff(src, dst), src)
    ensures Diff(src, dst).Keys <= src.Keys
    ensures |Diff(src, dst)| <= |src|
    ensures WellFormed(src) ==> WellFormed(Diff(src, dst))
  {
    var d := Diff(src, dst);
    assert d.Keys <= src.Keys;
    SubsetCardinality(d.Keys, src.Keys);
  }

  lemma {:induction false} SubsetCardinality<T>(a: set<T>, b: set<T>)
    requires a <= b
    ensures |a| <= |b|
  {
    if a != {} {
      var x :| x in a;
      SubsetCardinality(a - {x}, b - {x});
    }
  }

  /** Nothing is copied when every source object exists in the destination
      with a strictly newer timestamp, and only then. */
  lemma DiffEmptyIffDestinationNewer(src: Snapshot, dst: Snapshot)
    ensures Diff(src, dst) == map[] <==>
              forall n :: n in src ==> n in dst && dst[n].lastModified > src[n].lastModified
  {
    if Diff(src, dst) == map[] {
      forall n | n in src
        ensures n in dst && dst[n].lastModified > src[n].lastModified
      {
        assert n !in Diff(src, dst);
      }
    }
  }

  /** An empty source copies nothing; an empty destination copies everything. */
  lemma DiffOfEmpty(src: Snapshot, dst: Snapshot)
    ensures Diff(map[], dst) == map[]
    ensures Diff(src, map[]) == src
  {
  }

  /** The destination after every diff entry has been copied, the copy of
      name n carrying the destination timestamp `stamp[n]`. */
  function AfterCopy(dst: Snapshot, d: Snapshot, stamp: map<string, int>): (r: Snapshot)
    requires d.Keys <= stamp.Keys
    ensures r.Keys == dst.Keys + d.Keys
    ensures forall n :: n in d ==> r[n] == ObjectKey(d[n].name, stamp[n])
    ensures forall n :: n in dst && n !in d ==> r[n] == dst[n]
  {
    map n | n in dst.Keys + d.Keys :: if n in d then ObjectKey(d[n].name, stamp[n]) else dst[n]
  }

  /** A second run right after a fully successful one copies nothing
      exactly when every copy received a timestamp strictly newer than its
      source. */
  lemma ResyncEmptyIffCopiesNewer(src: Snapshot, dst: Snapshot, stamp: map<string, int>)
    requires Diff(src, dst).Keys <= stamp.Keys
    ensures Diff(src, AfterCopy(dst, Diff(src, dst), stamp)) == map[] <==>
              forall n :: n in Diff(src, dst) ==> stamp[n] > src[n].lastModified
  {
    var d := Diff(src, dst);
    var dst' := AfterCopy(dst, d, stamp);
    DiffEmptyIffDestinationNewer(src, dst');
    if forall n :: n in d ==> stamp[n] > src[n].lastModified {
      forall n | n in src
        ensures n in dst' && dst'[n].lastModified > src[n].lastModified
      {
        if n !in d {
          assert !NeedsCopy(src, dst, n);
        }
      }
    }
  }

  /** Because equal timestamps mean "copy", a destination whose copies kept
      the source timestamps yields the very same diff again. */
  lemma ResyncWithEqualStampsRepeats(src: Snapshot, dst: Snapshot)
    ensures var d := Diff(src, dst);
            Diff(src, AfterCopy(dst, d, map n | n in d :: src[n].lastModified)) == d
  {
  }

  /** The number of copy workers: never more than there are objects to copy. */
  function WorkerCount(diffSize: nat, configured: int): (t: int)
    ensures t <= diffSize && t <= configured
    ensures t == diffSize || t == configured
    ensures 0 < diffSize && 0 < configured ==> 0 < t
  {
    if diffSize < configured then diffSize else configured
  }
}
