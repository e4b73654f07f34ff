// Trees as a session or settings file may hold them, with parts missing or
// of the wrong type, which `None` (no children, for a list of children) stands for.
module SavedValues {
  import opened Sequences
  import opened PaneTrees

  datatype RawNode =
    | RawPane(tabId: Option<TabId>)
    | RawSplit(orientation: Option<Orientation>, children: seq<RawNode>, sizes: Option<seq<Option<real>>>)
    | RawOther

  // A size for each of `count` children: the one saved when it is a positive
  // number, or else 0.
  function UsableSizes(count: nat, sizes: seq<Option<real>>): (r: seq<real>)
    ensures |r| == count
  {
    seq(count, i requires 0 <= i < count =>
      if i < |sizes| && sizes[i].Some? then Positive(sizes[i].value) else 0.0)
  }

  function RawSizes(sizes: seq<real>): (r: seq<Option<real>>)
    ensures |r| == |sizes|
  {
    seq(|sizes|, i requires 0 <= i < |sizes| => Some(sizes[i]))
  }

  lemma UsableSizesOfSaved(sizes: seq<real>)
    requires forall i :: 0 <= i < |sizes| ==> sizes[i] >= 0.0
    ensures UsableSizes(|sizes|, RawSizes(sizes)) == sizes
  {
  }
}
