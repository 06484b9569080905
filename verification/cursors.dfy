/** Draining the store's cursor. A cursor is modelled as the sequence of the
    batches it yields, in order; `MoveNextAsync` advancing to the next batch is
    the step from one element of the outer sequence to the next. */
module Cursors {
  import opened Errors

  /** All documents of all batches, batch by batch, in order. */
  function Flatten<T>(batches: seq<seq<T>>): (docs: seq<T>)
    ensures batches == [] ==> docs == []
  {
    if batches == [] then [] else batches[0] + Flatten(batches[1..])
  }

  lemma {:induction false} FlattenAppendBatch<T>(batches: seq<seq<T>>, batch: seq<T>)
    ensures Flatten(batches + [batch]) == Flatten(batches) + batch
  {
    if batches != [] {
      assert (batches + [batch])[1..] == batches[1..] + [batch];
      FlattenAppendBatch(batches[1..], batch);
    }
  }

  /** A document is drained exactly when some batch holds it. */
  lemma {:induction false} FlattenHoldsEveryBatch<T>(batches: seq<seq<T>>, x: T)
    ensures x in Flatten(batches) <==> exists b | 0 <= b < |batches| :: x in batches[b]
  {
    if batches != [] {
      FlattenHoldsEveryBatch(batches[1..], x);
      if x in Flatten(batches[1..]) {
        var b :| 0 <= b < |batches[1..]| && x in batches[1..][b];
        assert x in batches[b + 1];
      }
      if exists b | 0 <= b < |batches| :: x in batches[b] {
        var b :| 0 <= b < |batches| && x in batches[b];
        if b > 0 { assert x in batches[1..][b - 1]; }
      }
    }
  }

  /** The first document of the first non-empty batch, if there is one. */
  function FirstDocument<T>(batches: seq<seq<T>>): (r: Option<T>)
    ensures batches == [] ==> r == None
  {
    if batches == [] then None
    else if batches[0] == [] then FirstDocument(batches[1..])
    else Some(batches[0][0])
  }

  /** The first document is the head of everything drained, or not-found
      when the cursor yields nothing. */
  lemma {:induction false} FirstDocumentIsHeadOfFlatten<T>(batches: seq<seq<T>>)
    ensures Flatten(batches) == [] ==> FirstDocument(batches) == None
    ensures Flatten(batches) != [] ==> FirstDocument(batches) == Some(Flatten(batches)[0])
  {
    if batches != [] {
      FirstDocumentIsHeadOfFlatten(batches[1..]);
    }
  }

  /** `GetDocuments`: appends every document of every batch to one list. */
  method GetDocuments<T>(batches: seq<seq<T>>) returns (docs: seq<T>)
    ensures docs == Flatten(batches)
  {
    docs := [];
    var b := 0;
    while b < |batches|
      invariant 0 <= b <= |batches|
      invariant docs == Flatten(batches[..b])
    {
      var batch := batches[b];
      var k := 0;
      while k < |batch|
        invariant 0 <= k <= |batch|
        invariant docs == Flatten(batches[..b]) + batch[..k]
      {
        docs := docs + [batch[k]];
        k := k + 1;
      }
      assert batch[..k] == batch;
      assert batches[..b + 1] == batches[..b] + [batch];
      FlattenAppendBatch(batches[..b], batch);
      b := b + 1;
    }
    assert batches[..b] == batches;
  }

  /** `GetDocument`: stops at the first document of the first batch that has
      one; `None` stands for `default(T)`. */
  method GetDocument<T>(batches: seq<seq<T>>) returns (r: Option<T>)
    ensures r == FirstDocument(batches)
  {
    var found := false;
    r := None;
    var b := 0;
    while b < |batches|
      invariant 0 <= b <= |batches|
      invariant !found && r == None
      invariant FirstDocument(batches) == FirstDocument(batches[b..])
    {
      var batch := batches[b];
      var k := 0;
      // the inner foreach breaks after its first document: `found` ends it
      while k < |batch| && !found
        invariant 0 <= k <= 1 && k <= |batch|
        invariant found <==> k == 1
        invariant found ==> r == Some(batch[0])
        invariant !found ==> r == None
      {
        r := Some(batch[k]);
        found := true;
        k := k + 1;
      }
      if found {
        break;
      }
      assert batches[b..][1..] == batches[b + 1..];
      b := b + 1;
    }
  }
}
