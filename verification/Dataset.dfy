/** Labelled training examples of one session: src/aether/ml/dataset.py. */
module Dataset {
  import opened Prelude
  import opened Sessions

  datatype Example<F> = Example(features: F, abandoned: bool, session: string, start: int, index: nat)

  /** The state once events `0..i` are in. */
  function StateAt(events: seq<Event>, i: nat): Session
    requires i < |events|
  {
    Fold(events[0].session, events[..i + 1])
  }

  function ExampleAt<F>(events: seq<Event>, features: Session -> F, i: nat, abandoned: bool): Example<F>
    requires i < |events|
  {
    Example(features(StateAt(events, i)), abandoned, events[0].session, events[0].ts, i)
  }

  /** One example for every event that leaves a cart open, abandoned iff no purchase follows. */
  function Labelled<F>(events: seq<Event>, features: Session -> F, n: nat): seq<Example<F>>
    requires n <= |events|
  {
    if n == 0 then []
    else
      var i := n - 1;
      Labelled(events, features, i)
      + if StateAt(events, i).HasOpenCart() then [ExampleAt(events, features, i, !PurchaseAfter(events, i))] else []
  }

  /** Examples of events `c..n`, not yet labelled. */
  function Pending<F>(events: seq<Event>, features: Session -> F, c: nat, n: nat): seq<Example<F>>
    requires c <= n <= |events|
  {
    if n == c then []
    else
      var i := n - 1;
      Pending(events, features, c, i)
      + if StateAt(events, i).HasOpenCart() then [ExampleAt(events, features, i, true)] else []
  }

  function Relabelled<F>(examples: seq<Example<F>>, abandoned: bool): (r: seq<Example<F>>)
    ensures |r| == |examples|
  {
    seq(|examples|, k requires 0 <= k < |examples| => examples[k].(abandoned := abandoned))
  }

  /** The examples of a stretch on which every label comes out the same. */
  lemma {:induction false} LabelledStretch<F>(events: seq<Event>, features: Session -> F, c: nat, n: nat, abandoned: bool)
    requires c <= n <= |events|
    requires forall i :: c <= i < n && StateAt(events, i).HasOpenCart() ==> PurchaseAfter(events, i) == !abandoned
    ensures Labelled(events, features, n)
         == Labelled(events, features, c) + Relabelled(Pending(events, features, c, n), abandoned)
  {
    hide StateAt, PurchaseAfter;
    if c < n {
      LabelledStretch(events, features, c, n - 1, abandoned);
      var before := Pending(events, features, c, n - 1);
      if StateAt(events, n - 1).HasOpenCart() {
        RelabelledSnoc(before, ExampleAt(events, features, n - 1, true), abandoned);
      } else {
        assert Pending(events, features, c, n) == before;
        assert Labelled(events, features, n) == Labelled(events, features, n - 1);
      }
    }
  }

  lemma RelabelledSnoc<F>(examples: seq<Example<F>>, last: Example<F>, abandoned: bool)
    ensures Relabelled(examples + [last], abandoned) == Relabelled(examples, abandoned) + [last.(abandoned := abandoned)]
  {
  }

  /** A purchase leaves no cart open. */
  lemma PurchaseCloses(events: seq<Event>, i: nat)
    requires i < |events| && events[i].kind == Purchase
    ensures !StateAt(events, i).HasOpenCart()
  {
    FoldCounts(events[0].session, events[..i + 1]);
  }

  lemma NoCartNoExamples<F>(events: seq<Event>, features: Session -> F, n: nat)
    requires n <= |events| && forall i :: 0 <= i < |events| ==> events[i].kind != Cart
    ensures Labelled(events, features, n) == []
  {
    if n > 0 {
      NoCartNoExamples(events, features, n - 1);
      var seen := events[..n];
      OpenCartIff(events[0].session, seen);
      forall i: nat ensures !AddStands(seen, i) {}
    }
  }

  /** Where the open cycle began, and that no purchase has closed it since. */
  ghost predicate CycleFrom(events: seq<Event>, c: nat, i: nat)
    requires c <= i <= |events|
  {
    forall k :: c <= k < i ==> events[k].kind != Purchase
  }

  lemma CycleConverted(events: seq<Event>, c: nat, i: nat)
    requires c <= i < |events| && events[i].kind == Purchase
    ensures forall k :: c <= k < i ==> PurchaseAfter(events, k)
  {
  }

  lemma CycleAbandoned(events: seq<Event>, c: nat)
    requires c <= |events| && CycleFrom(events, c, |events|)
    ensures forall k :: c <= k < |events| ==> !PurchaseAfter(events, k)
  {
  }

  /** Every labelled example of a session, as brute force over the events would label it. */
  method ExamplesFromSession<F>(events: seq<Event>, features: Session -> F) returns (out: seq<Example<F>>)
    ensures out == Labelled(events, features, |events|)
  {
    hide Labelled, Pending, StateAt, Fold, Relabelled, PurchaseAfter, Step;
    var any := HasCart(events);
    if !any {
      NoCartNoExamples(events, features, |events|);
      return [];
    }
    var state := new SessionState(events[0].session);
    var start := events[0].ts;
    out := [];
    var pending: seq<Example<F>> := [];
    ghost var c: nat := 0;
    Begin(events, features);
    for i := 0 to |events|
      invariant fresh(state) && state.Value() == Fold(events[0].session, events[..i])
      invariant c <= i && CycleFrom(events, c, i)
      invariant out == Labelled(events, features, c) && pending == Pending(events, features, c, i)
    {
      var event := events[i];
      FoldMore(events, i);
      MoreExamples(events, features, c, i);
      if event.kind == Purchase {
        CycleConverted(events, c, i);
        LabelledStretch(events, features, c, i, false);
        PurchaseCloses(events, i);
        out := out + Relabelled(pending, false);
        pending := [];
        c := i + 1;
        state.Update(event);
      } else {
        state.Update(event);
        if state.Value().HasOpenCart() {
          var copy := state.Copy();
          pending := pending + [Example(features(copy.Value()), true, events[0].session, start, i)];
        }
      }
    }
    CycleAbandoned(events, c);
    LabelledStretch(events, features, c, |events|, true);
    out := out + Relabelled(pending, true);
  }

  method HasCart(events: seq<Event>) returns (any: bool)
    ensures any <==> exists i :: 0 <= i < |events| && events[i].kind == Cart
  {
    for i := 0 to |events|
      invariant forall k :: 0 <= k < i ==> events[k].kind != Cart
    {
      if events[i].kind == Cart {
        return true;
      }
    }
    any := false;
  }

  lemma Begin<F>(events: seq<Event>, features: Session -> F)
    requires events != []
    ensures Fold(events[0].session, events[..0]) == NewSession(events[0].session)
    ensures Labelled(events, features, 0) == [] && Pending(events, features, 0, 0) == []
  {
  }

  lemma FoldMore(events: seq<Event>, i: nat)
    requires i < |events|
    ensures StateAt(events, i) == Step(Fold(events[0].session, events[..i]), events[i])
    ensures Fold(events[0].session, events[..i + 1]) == StateAt(events, i)
  {
    hide Step;
    assert events[..i + 1][..i] == events[..i];
  }

  lemma MoreExamples<F>(events: seq<Event>, features: Session -> F, c: nat, i: nat)
    requires c <= i < |events|
    ensures Pending(events, features, i + 1, i + 1) == []
    ensures Pending(events, features, c, i + 1) == Pending(events, features, c, i)
      + (if StateAt(events, i).HasOpenCart() then [ExampleAt(events, features, i, true)] else [])
    ensures !StateAt(events, i).HasOpenCart() ==> Labelled(events, features, i + 1) == Labelled(events, features, i)
  {
    hide StateAt;
  }

  // ---- what the labels say ---------------------------------------------

  /** Examples and events correspond: which events have one, in what order, and labelled how. */
  lemma {:induction false} LabelledExactly<F>(events: seq<Event>, features: Session -> F, n: nat, i: nat, abandoned: bool)
    requires n <= |events| && i < |events|
    ensures ExampleAt(events, features, i, abandoned) in Labelled(events, features, n)
       <==> i < n && StateAt(events, i).HasOpenCart() && (abandoned <==> !PurchaseAfter(events, i))
  {
    hide StateAt, PurchaseAfter;
    if n > 0 {
      LabelledExactly(events, features, n - 1, i, abandoned);
    }
  }

  lemma {:induction false} LabelledInOrder<F>(events: seq<Event>, features: Session -> F, n: nat)
    requires n <= |events|
    ensures forall k :: 0 <= k < |Labelled(events, features, n)| ==>
      var x := Labelled(events, features, n)[k];
      x.index < n && x == ExampleAt(events, features, x.index, x.abandoned)
    ensures forall j, k :: 0 <= j < k < |Labelled(events, features, n)| ==>
      Labelled(events, features, n)[j].index < Labelled(events, features, n)[k].index
  {
    hide StateAt, PurchaseAfter;
    if n > 0 {
      LabelledInOrder(events, features, n - 1);
    }
  }

  /** What an example says of its session, its event and what came after. */
  lemma ExamplesWrittenOut<F>(events: seq<Event>, features: Session -> F, n: nat, x: Example<F>)
    requires n <= |events| && x in Labelled(events, features, n)
    ensures x.index < n && x.session == events[0].session && x.start == events[0].ts
    ensures x.features == features(Fold(events[0].session, events[..x.index + 1]))
    ensures x.abandoned <==> forall k :: x.index < k < |events| ==> events[k].kind != Purchase
  {
    hide Fold, Labelled;
    LabelledInOrder(events, features, n);
    var k :| 0 <= k < |Labelled(events, features, n)| && Labelled(events, features, n)[k] == x;
    LabelledExactly(events, features, n, x.index, x.abandoned);
  }
}
