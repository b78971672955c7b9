/** Option and Result, and the ordered "map every item or fail at the first
    failure" fold that each stage of the booklet pipeline is built on. */
module Wrappers {

  datatype Option<+T> = None | Some(value: T)

  datatype Result<+T, +E> = Ok(value: T) | Err(error: E)

  /** Applies `step` to every item of `s` in order, collecting the results;
      the first item whose step fails makes the whole fold fail with that
      item's error (the behaviour of a loop that pushes onto an array and
      throws on the first bad item). */
  function MapAll<A, B, E>(s: seq<A>, step: A -> Result<B, E>): Result<seq<B>, E>
  {
    if s == [] then Ok([])
    else
      match MapAll(s[..|s| - 1], step)
      case Err(e) => Err(e)
      case Ok(done) =>
        match step(s[|s| - 1])
        case Err(e) => Err(e)
        case Ok(b) => Ok(done + [b])
  }

  /** Extending the input by one item extends a successful fold by that item's
      result, and a failed prefix decides the outcome. */
  lemma MapAllSnoc<A, B, E>(s: seq<A>, x: A, step: A -> Result<B, E>)
    ensures MapAll(s + [x], step) ==
      match MapAll(s, step)
      case Err(e) => Err(e)
      case Ok(done) =>
        match step(x)
        case Err(e) => Err(e)
        case Ok(b) => Ok(done + [b])
  {
    assert (s + [x])[..|s + [x]| - 1] == s;
  }

  /** Once a prefix has failed, nothing after it changes the outcome. */
  lemma {:induction false} MapAllFailedPrefix<A, B, E>(s: seq<A>, m: nat, step: A -> Result<B, E>)
    requires m <= |s|
    requires MapAll(s[..m], step).Err?
    ensures MapAll(s, step) == MapAll(s[..m], step)
  {
    if m < |s| {
      assert s[..|s| - 1][..m] == s[..m];
      MapAllFailedPrefix(s[..|s| - 1], m, step);
    } else {
      assert s[..m] == s;
    }
  }

  /** The fold succeeds exactly when every step succeeds; then it returns one
      result per item, in the order of the items. */
  lemma {:induction false} MapAllOk<A, B, E>(s: seq<A>, step: A -> Result<B, E>)
    ensures MapAll(s, step).Ok? <==> forall k :: 0 <= k < |s| ==> step(s[k]).Ok?
    ensures MapAll(s, step).Ok? ==>
      |MapAll(s, step).value| == |s| &&
      forall k :: 0 <= k < |s| ==> step(s[k]) == Ok(MapAll(s, step).value[k])
  {
    if s != [] {
      var front := s[..|s| - 1];
      MapAllOk(front, step);
      assert forall k :: 0 <= k < |front| ==> front[k] == s[k];
    }
  }

  /** A failed fold reports the error of its first failing item. */
  lemma {:induction false} MapAllFirstError<A, B, E>(s: seq<A>, step: A -> Result<B, E>)
    requires MapAll(s, step).Err?
    ensures exists k :: 0 <= k < |s| && step(s[k]) == Err(MapAll(s, step).error) &&
                        forall j :: 0 <= j < k ==> step(s[j]).Ok?
  {
    var front := s[..|s| - 1];
    assert forall k :: 0 <= k < |front| ==> front[k] == s[k];
    if MapAll(front, step).Err? {
      MapAllFirstError(front, step);
      var k :| 0 <= k < |front| && step(front[k]) == Err(MapAll(front, step).error) &&
                forall j :: 0 <= j < k ==> step(front[j]).Ok?;
      assert step(s[k]) == Err(MapAll(s, step).error);
    } else {
      MapAllOk(front, step);
      assert step(s[|s| - 1]) == Err(MapAll(s, step).error);
    }
  }

  /** Concatenation of a sequence of sequences. */
  function Flatten<T>(blocks: seq<seq<T>>): seq<T>
  {
    if blocks == [] then [] else Flatten(blocks[..|blocks| - 1]) + blocks[|blocks| - 1]
  }

  /** The total length of a sequence of sequences. */
  function SumLengths<T>(blocks: seq<seq<T>>): nat
  {
    if blocks == [] then 0 else SumLengths(blocks[..|blocks| - 1]) + |blocks[|blocks| - 1]|
  }

  lemma {:induction false} FlattenLength<T>(blocks: seq<seq<T>>)
    ensures |Flatten(blocks)| == SumLengths(blocks)
  {
    if blocks != [] {
      FlattenLength(blocks[..|blocks| - 1]);
    }
  }

  /** Block `k` sits right after all items of the blocks before it. */
  lemma {:induction false} FlattenSlice<T>(blocks: seq<seq<T>>, k: nat)
    requires k < |blocks|
    ensures SumLengths(blocks[..k]) + |blocks[k]| <= |Flatten(blocks)|
    ensures Flatten(blocks)[SumLengths(blocks[..k])..SumLengths(blocks[..k]) + |blocks[k]|] == blocks[k]
  {
    var front := blocks[..|blocks| - 1];
    FlattenLength(front);
    FlattenLength(blocks);
    assert Flatten(blocks) == Flatten(front) + blocks[|blocks| - 1];
    if k == |blocks| - 1 {
      assert blocks[..k] == front;
    } else {
      assert front[..k] == blocks[..k];
      FlattenSlice(front, k);
      var lo := SumLengths(blocks[..k]);
      assert Flatten(blocks)[lo..lo + |blocks[k]|] == Flatten(front)[lo..lo + |blocks[k]|];
    }
  }
}
