// Which publication is current, in every run of the store.
module CurrentSnapshot {
  import opened Types
  import opened Store
  import opened Paging

  ghost predicate LastPublished(ops: seq<Op>, i: int) {
    0 <= i < |ops| && ops[i].Publish? && forall j :: i < j < |ops| ==> !ops[j].Publish?
  }

  // Op i is the first of the latest publications of one nonzero slot, or the latest if that is of slot
  // zero.
  ghost predicate Shown(ops: seq<Op>, i: int) {
    && 0 <= i < |ops| && ops[i].Publish?
    && (ops[i].slot == 0 ==> LastPublished(ops, i))
    && (forall j :: i < j < |ops| && ops[j].Publish? ==> ops[j].slot == ops[i].slot)
    && (ops[i].slot != 0 ==> forall j :: LastPublished(ops[..i], j) ==> ops[j].slot != ops[i].slot)
  }

  lemma LastPublishedSnoc(ops: seq<Op>, op: Op, i: int)
    ensures LastPublished(ops + [op], i) <==> if op.Publish? then i == |ops| else LastPublished(ops, i)
  {
    var all, n := ops + [op], |ops|;
    assert all[n] == op && forall j :: 0 <= j < n ==> all[j] == ops[j];
  }

  lemma ShownSnoc(ops: seq<Op>, op: Op, i: nat)
    requires i < |ops|
    ensures Shown(ops + [op], i) <==> Shown(ops, i) && (op.Publish? ==> op.slot == ops[i].slot != 0)
  {
    var all, n := ops + [op], |ops|;
    assert all[n] == op && forall j :: 0 <= j < n ==> all[j] == ops[j];
    assert all[..i] == ops[..i];
    LastPublishedSnoc(ops, op, i);
  }

  // The current snapshot is that of publication i, and the source named that of the latest, l.
  ghost predicate Describes(ops: seq<Op>, s: StoreState, i: nat, l: nat) {
    && Shown(ops, i) && s.current == Snapshot(ops[i].slot, ops[i].accounts)
    && LastPublished(ops, l) && s.current.slot == ops[l].slot && s.activeUrl == Some(ops[l].url)
  }

  ghost predicate AnyPublished(ops: seq<Op>) {
    exists i :: 0 <= i < |ops| && ops[i].Publish?
  }

  ghost predicate Described(ops: seq<Op>, s: StoreState) {
    if AnyPublished(ops) then exists i: nat, l: nat :: Describes(ops, s, i, l)
    else s.current == Snapshot(0, map[]) && s.activeUrl == None
  }

  lemma AnyPublishedSnoc(ops: seq<Op>, op: Op)
    ensures AnyPublished(ops + [op]) <==> AnyPublished(ops) || op.Publish?
  {
    var all, n := ops + [op], |ops|;
    assert all[n] == op && forall j :: 0 <= j < n ==> all[j] == ops[j];
  }

  lemma DescribedSnoc(ops: seq<Op>, op: Op, s: StoreState)
    requires Described(ops, s)
    ensures Described(ops + [op], Step(s, op))
  {
    AnyPublishedSnoc(ops, op);
    if AnyPublished(ops) {
      var i: nat, l: nat :| Describes(ops, s, i, l);
      if op.Publish? {
        PublishDescribes(ops, op, s, i, l);
      } else {
        OtherDescribes(ops, op, s, i, l);
      }
    } else if op.Publish? {
      FirstDescribes(ops, op, s);
    }
  }

  lemma OtherDescribes(ops: seq<Op>, op: Op, before: StoreState, i: nat, l: nat)
    requires Describes(ops, before, i, l) && !op.Publish?
    ensures Describes(ops + [op], Step(before, op), i, l)
  {
    ShownSnoc(ops, op, i);
    LastPublishedSnoc(ops, op, l);
  }

  lemma FirstDescribes(ops: seq<Op>, op: Op, before: StoreState)
    requires !AnyPublished(ops) && op.Publish? && before.current == Snapshot(0, map[])
    ensures Describes(ops + [op], Step(before, op), |ops|, |ops|)
  {
    LastPublishedSnoc(ops, op, |ops|);
    assert (ops + [op])[..|ops|] == ops;
  }

  // In every run the current snapshot and the source named are so described; before any publication
  // they are empty.
  lemma {:induction false} CurrentIsShown(ops: seq<Op>)
    ensures Described(ops, Run(EMPTY, ops))
  {
    if ops == [] {
    } else {
      var n := |ops| - 1;
      CurrentIsShown(ops[..n]);
      DescribedSnoc(ops[..n], ops[n], Run(EMPTY, ops[..n]));
      assert ops[..n] + [ops[n]] == ops;
    }
  }

  lemma PublishDescribes(ops: seq<Op>, op: Op, before: StoreState, i: nat, l: nat)
    requires Describes(ops, before, i, l) && op.Publish?
    ensures exists i: nat, l: nat :: Describes(ops + [op], Step(before, op), i, l)
  {
    LastPublishedSnoc(ops, op, |ops|);
    if op.slot != before.current.slot || op.slot == 0 {
      NewShown(ops, op, l);
      assert Describes(ops + [op], Step(before, op), |ops|, |ops|);
    } else {
      ShownSnoc(ops, op, i);
      assert Describes(ops + [op], Step(before, op), i, |ops|);
    }
  }

  lemma NewShown(ops: seq<Op>, op: Op, l: int)
    requires op.Publish? && LastPublished(ops, l) && (op.slot != ops[l].slot || op.slot == 0)
    ensures Shown(ops + [op], |ops|)
  {
    var all, n := ops + [op], |ops|;
    assert all[..n] == ops && all[n] == op;
    LastPublishedSnoc(ops, op, n);
    forall j | LastPublished(ops, j)
      ensures j == l
    {
    }
  }
}
