/** What every run of a predictor keeps, and why serving agrees with training. */
module PredictorRuns {
  import opened Prelude
  import opened Sessions
  import opened Predicting
  import opened Dataset

  /** What the loop calls, in any order. */
  datatype Action = Handle(e: Event, p: int) | Sweep | Drop(revoked: set<int>)

  function Act(v: Held, a: Action, timeout: int): Held {
    match a
    case Handle(e, p) => Handled(v, e, p)
    case Sweep => Swept(v, timeout)
    case Drop(revoked) => Dropped(v, revoked)
  }

  /** What a replica holds after `actions`. */
  function After(actions: seq<Action>, timeout: int): Held {
    if actions == [] then Held(map[], map[], map[])
    else Act(After(actions[..|actions| - 1], timeout), actions[|actions| - 1], timeout)
  }

  /** The events of session `id` delivered since it was last dropped. */
  function History(actions: seq<Action>, id: string, timeout: int): seq<Event> {
    if actions == [] then []
    else
      var (before, a) := (History(actions[..|actions| - 1], id, timeout), actions[|actions| - 1]);
      match a
      case Handle(e, _) => if e.session == id then before + [e] else before
      case _ => if id in After(actions, timeout).sessions then before else []
  }

  /** The newest event time seen on `p` since it was last revoked, at least zero. */
  function Newest(actions: seq<Action>, p: int): Option<int> {
    if actions == [] then None
    else
      var (before, a) := (Newest(actions[..|actions| - 1], p), actions[|actions| - 1]);
      match a
      case Handle(e, q) => if q == p then Some(Max(if before.Some? then before.value else 0, e.ts)) else before
      case Drop(revoked) => if p in revoked then None else before
      case Sweep => before
  }

  lemma {:induction false} WatermarksAreNewest(actions: seq<Action>, p: int, timeout: int)
    ensures var w := After(actions, timeout).watermarks;
      Newest(actions, p) == if p in w then Some(w[p]) else None
  {
    hide Step;
    if actions != [] {
      WatermarksAreNewest(actions[..|actions| - 1], p, timeout);
    }
  }

  /** Every session has a partition, and that partition has passed the session's last event. */
  ghost predicate Tracked(v: Held) {
    && v.sessions.Keys == v.partitions.Keys
    && forall id :: id in v.sessions ==>
      v.partitions[id] in v.watermarks && v.watermarks[v.partitions[id]] >= v.sessions[id].lastTs
  }

  lemma ActKeepsTracked(v: Held, a: Action, timeout: int)
    requires Tracked(v)
    ensures Tracked(Act(v, a, timeout))
  {
    hide Step, StaleIn;
    match a {
      case Handle(e, p) =>
        StepTimes(Get(v.sessions, e.session, NewSession(e.session)), e);
      case Sweep =>
      case Drop(revoked) =>
    }
  }

  lemma {:induction false} RunsKeepTracked(actions: seq<Action>, timeout: int)
    ensures Tracked(After(actions, timeout))
  {
    hide Act;
    if actions != [] {
      RunsKeepTracked(actions[..|actions| - 1], timeout);
      ActKeepsTracked(After(actions[..|actions| - 1], timeout), actions[|actions| - 1], timeout);
    }
  }

  /** A held state is the fold of the events delivered since its session was last dropped. */
  lemma {:induction false} StatesAreFolds(actions: seq<Action>, id: string, timeout: int)
    ensures var (v, events) := (After(actions, timeout), History(actions, id, timeout));
      && (id in v.sessions <==> events != [])
      && (id in v.sessions ==> v.sessions[id] == Fold(id, events))
      && forall k :: 0 <= k < |events| ==> events[k].session == id
  {
    hide Step, StaleIn;
    if actions != [] {
      var n := |actions| - 1;
      StatesAreFolds(actions[..n], id, timeout);
      var (v, events) := (After(actions[..n], timeout), History(actions[..n], id, timeout));
      if actions[n].Handle? && actions[n].e.session == id {
        FoldSnoc(id, events, actions[n].e);
      }
    }
  }

  lemma FoldSnoc(id: string, events: seq<Event>, e: Event)
    ensures Fold(id, events + [e]) == Step(Fold(id, events), e)
    ensures Fold(id, []) == NewSession(id)
  {
    hide Step;
    assert (events + [e])[..|events|] == events;
  }

  /** A sweep drops exactly the sessions whose own partition has moved on by more than the timeout. */
  lemma SweepExact(actions: seq<Action>, id: string, timeout: int)
    ensures var (v, swept) := (After(actions, timeout), After(actions + [Sweep], timeout));
      && v.sessions.Keys == v.partitions.Keys
      && (id in v.sessions ==> v.partitions[id] in v.watermarks)
      && (id in swept.sessions
          <==> id in v.sessions && v.watermarks[v.partitions[id]] - v.sessions[id].lastTs <= timeout)
      && (id in swept.sessions ==> swept.sessions[id] == v.sessions[id])
  {
    RunsKeepTracked(actions, timeout);
    assert (actions + [Sweep])[..|actions|] == actions;
  }

  // ---- partitions do not disturb each other ----------------------------

  /** Kafka's keying: every event of a session arrives on one partition. */
  ghost predicate Keyed(actions: seq<Action>, home: string -> int) {
    forall i :: 0 <= i < |actions| && actions[i].Handle? ==> actions[i].p == home(actions[i].e.session)
  }

  /** The actions partition `p` can see. */
  function Seen(actions: seq<Action>, p: int): seq<Action> {
    if actions == [] then []
    else
      var (before, a) := (Seen(actions[..|actions| - 1], p), actions[|actions| - 1]);
      if a.Handle? && a.p != p then before else before + [a]
  }

  /** What is held of partition `p`. */
  function Only(v: Held, p: int): Held {
    var ids := set id | id in v.partitions && v.partitions[id] == p;
    Held(map id | id in v.sessions && id in ids :: v.sessions[id],
         map id | id in ids :: p,
         map q | q in v.watermarks && q == p :: v.watermarks[q])
  }

  ghost predicate AtHome(v: Held, home: string -> int) {
    v.sessions.Keys == v.partitions.Keys && forall id :: id in v.partitions ==> v.partitions[id] == home(id)
  }

  lemma OnlyHandle(v: Held, e: Event, q: int, p: int, home: string -> int)
    requires AtHome(v, home) && q == home(e.session)
    ensures AtHome(Handled(v, e, q), home)
    ensures Only(Handled(v, e, q), p) == if q == p then Handled(Only(v, p), e, p) else Only(v, p)
  {
    hide Only, NewSession;
    if q == p {
      OnlyHandleHere(v, e, p, home);
    } else {
      OnlyHandleThere(v, e, q, p, home);
    }
  }

  lemma OnlyHandleHere(v: Held, e: Event, p: int, home: string -> int)
    requires AtHome(v, home) && p == home(e.session)
    ensures Only(Handled(v, e, p), p) == Handled(Only(v, p), e, p)
  {
    hide Step, NewSession;
    var (a, b) := (Only(Handled(v, e, p), p), Handled(Only(v, p), e, p));
    OnlyWatermark(v, p);
    OnlySessions(v, e, p, home);
    hide Get;
    assert a.partitions == b.partitions;
    assert a.watermarks == b.watermarks;
  }

  lemma OnlySessions(v: Held, e: Event, p: int, home: string -> int)
    requires AtHome(v, home) && p == home(e.session)
    ensures Only(Handled(v, e, p), p).sessions == Handled(Only(v, p), e, p).sessions
  {
    hide Step, NewSession;
    OnlyState(v, e.session, p, home);
    hide Get;
  }

  lemma OnlyState(v: Held, id: string, p: int, home: string -> int)
    requires AtHome(v, home) && p == home(id)
    ensures Get(Only(v, p).sessions, id, NewSession(id)) == Get(v.sessions, id, NewSession(id))
  {
    hide NewSession;
  }

  lemma OnlyWatermark(v: Held, p: int)
    ensures Get(Only(v, p).watermarks, p, 0) == Get(v.watermarks, p, 0)
  {
  }

  lemma OnlyHandleThere(v: Held, e: Event, q: int, p: int, home: string -> int)
    requires AtHome(v, home) && q == home(e.session) && q != p
    ensures Only(Handled(v, e, q), p) == Only(v, p)
  {
    hide Step, NewSession;
    var (a, b) := (Only(Handled(v, e, q), p), Only(v, p));
    assert a.sessions == b.sessions;
    assert a.partitions == b.partitions;
    assert a.watermarks == b.watermarks;
  }

  lemma OnlySweep(v: Held, p: int, timeout: int, home: string -> int)
    requires AtHome(v, home)
    ensures AtHome(Swept(v, timeout), home)
    ensures Only(Swept(v, timeout), p) == Swept(Only(v, p), timeout)
  {
    hide Stale;
    var o := Only(v, p);
    forall id | id in o.sessions
      ensures Stale(o, id, timeout) == Stale(v, id, timeout)
    {
      OnlyStale(v, p, id, timeout, home);
    }
    var (a, b) := (Only(Swept(v, timeout), p), Swept(o, timeout));
    assert a.sessions == b.sessions;
    assert a.partitions == b.partitions;
  }

  lemma OnlyStale(v: Held, p: int, id: string, timeout: int, home: string -> int)
    requires AtHome(v, home) && id in Only(v, p).sessions
    ensures Stale(Only(v, p), id, timeout) == Stale(v, id, timeout)
  {
  }

  lemma OnlyDrop(v: Held, revoked: set<int>, p: int, home: string -> int)
    requires AtHome(v, home)
    ensures AtHome(Dropped(v, revoked), home)
    ensures Only(Dropped(v, revoked), p) == Dropped(Only(v, p), revoked)
  {
    var (a, b) := (Only(Dropped(v, revoked), p), Dropped(Only(v, p), revoked));
    assert a.sessions == b.sessions;
    assert a.partitions == b.partitions;
    assert a.watermarks == b.watermarks;
  }

  /** What is held of a partition depends on no other partition's events: none expires its sessions. */
  lemma {:induction false} PartitionsIndependent(actions: seq<Action>, p: int, timeout: int, home: string -> int)
    requires Keyed(actions, home)
    ensures AtHome(After(actions, timeout), home)
    ensures Only(After(actions, timeout), p) == After(Seen(actions, p), timeout)
  {
    hide Handled, Swept, Dropped, Only, AtHome;
    if actions == [] {
      EmptyOnly(p, home);
    } else {
      var n := |actions| - 1;
      var (v, a, before) := (After(actions[..n], timeout), actions[n], Seen(actions[..n], p));
      PartitionsIndependent(actions[..n], p, timeout, home);
      assert (before + [a])[..|before|] == before;
      match a {
        case Handle(e, q) => OnlyHandle(v, e, q, p, home);
        case Sweep => OnlySweep(v, p, timeout, home);
        case Drop(revoked) => OnlyDrop(v, revoked, p, home);
      }
    }
  }

  lemma EmptyOnly(p: int, home: string -> int)
    ensures AtHome(Held(map[], map[], map[]), home)
    ensures Only(Held(map[], map[], map[]), p) == Held(map[], map[], map[])
  {
  }

  // ---- serving and training --------------------------------------------

  /**
   The predictor scores the state after an event exactly when the trainer, given the
   whole session, makes an example of that event and it is not the session's first; and
   it scores the very state the example was featurised from.
   */
  lemma ServingMatchesTraining<F>(actions: seq<Action>, e: Event, p: int, future: seq<Event>, timeout: int,
                                  features: Session -> F)
    ensures var past := History(actions, e.session, timeout);
      var (events, i) := (past + [e] + future, |past|);
      var state := After(actions + [Handle(e, p)], timeout).sessions[e.session];
      && state == StateAt(events, i)
      && (Scores(state) <==> i >= 1 && exists abandoned ::
            ExampleAt(events, features, i, abandoned) in Labelled(events, features, |events|))
  {
    hide Step, StateAt, Labelled;
    var past := History(actions, e.session, timeout);
    var (events, i) := (past + [e] + future, |past|);
    var run := actions + [Handle(e, p)];
    assert run[..|actions|] == actions;
    StatesAreFolds(run, e.session, timeout);
    StateOfPrefix(past, e, future);
    FoldCounts(e.session, past + [e]);
    var abandoned := !PurchaseAfter(events, i);
    LabelledExactly(events, features, |events|, i, abandoned);
    LabelledExactly(events, features, |events|, i, !abandoned);
  }

  lemma StateOfPrefix(past: seq<Event>, e: Event, future: seq<Event>)
    requires forall k :: 0 <= k < |past| ==> past[k].session == e.session
    ensures StateAt(past + [e] + future, |past|) == Fold(e.session, past + [e])
  {
    assert (past + [e] + future)[..|past| + 1] == past + [e];
    assert (past + [e] + future)[0].session == e.session;
  }

  /** The states a predictor scores over one session, in order. */
  function Served<F>(events: seq<Event>, features: Session -> F, n: nat): seq<(nat, F)>
    requires n <= |events|
  {
    if n == 0 then []
    else
      var state := StateAt(events, n - 1);
      Served(events, features, n - 1) + if Scores(state) then [(n - 1, features(state))] else []
  }

  /** The examples after the session's first event. */
  function Trained<F>(examples: seq<Example<F>>): seq<(nat, F)> {
    if examples == [] then []
    else
      var x := examples[|examples| - 1];
      Trained(examples[..|examples| - 1]) + if x.index >= 1 then [(x.index, x.features)] else []
  }

  /** With no drop in between, they are the trainer's examples from the second event on. */
  lemma {:induction false} ServedAreExamples<F>(events: seq<Event>, features: Session -> F, n: nat)
    requires n <= |events|
    ensures Served(events, features, n) == Trained(Labelled(events, features, n))
  {
    hide PurchaseAfter, Step;
    if n > 0 {
      ServedAreExamples(events, features, n - 1);
      FoldCounts(events[0].session, events[..n]);
      var before := Labelled(events, features, n - 1);
      if StateAt(events, n - 1).HasOpenCart() {
        TrainedSnoc(before, ExampleAt(events, features, n - 1, !PurchaseAfter(events, n - 1)));
      } else {
        assert Labelled(events, features, n) == before;
      }
    }
  }

  lemma TrainedSnoc<F>(examples: seq<Example<F>>, x: Example<F>)
    ensures Trained(examples + [x]) == Trained(examples) + if x.index >= 1 then [(x.index, x.features)] else []
  {
    assert (examples + [x])[..|examples|] == examples;
  }

  /**
   What the calls of a run return for session `id` since it was last dropped: the features of each
   state predicted from, with the number of the event it followed.
   */
  function Predicted<F>(actions: seq<Action>, id: string, features: Session -> F, timeout: int): seq<(nat, F)> {
    if actions == [] then []
    else
      var (init, v) := (actions[..|actions| - 1], After(actions, timeout));
      var before := Predicted(init, id, features, timeout);
      match actions[|actions| - 1]
      case Handle(e, _) =>
        if e.session != id then before
        else
          var state := v.sessions[id];
          before + if Scores(state) then [(|History(init, id, timeout)|, features(state))] else []
      case _ => if id in v.sessions then before else []
  }

  lemma {:induction false} ServedPrefix<F>(events: seq<Event>, e: Event, features: Session -> F, n: nat)
    requires n <= |events|
    ensures Served(events + [e], features, n) == Served(events, features, n)
  {
    hide Fold, Scores;
    if n > 0 {
      ServedPrefix(events, e, features, n - 1);
      assert (events + [e])[..n] == events[..n] && (events + [e])[0] == events[0];
    }
  }

  lemma {:induction false} PredictedAreServed<F>(actions: seq<Action>, id: string, features: Session -> F, timeout: int)
    ensures var events := History(actions, id, timeout);
      Predicted(actions, id, features, timeout) == Served(events, features, |events|)
  {
    hide Act, Fold, Scores, NewSession;
    if actions != [] {
      var (init, a) := (actions[..|actions| - 1], actions[|actions| - 1]);
      PredictedAreServed(init, id, features, timeout);
      if a.Handle? && a.e.session == id {
        var past := History(init, id, timeout);
        StatesAreFolds(actions, id, timeout);
        ServedPrefix(past, a.e, features, |past|);
        assert (past + [a.e])[..|past| + 1] == past + [a.e];
      }
    }
  }

  /**
   Over any run, what a replica predicted from for a session since it was last dropped are the
   trainer's examples of the events it has seen since, from the second on: the same features, in order.
   */
  lemma PredictionsAreExamples<F>(actions: seq<Action>, id: string, features: Session -> F, timeout: int)
    ensures var events := History(actions, id, timeout);
      Predicted(actions, id, features, timeout) == Trained(Labelled(events, features, |events|))
  {
    hide Predicted, Served, Trained, Labelled, History;
    var events := History(actions, id, timeout);
    PredictedAreServed(actions, id, features, timeout);
    ServedAreExamples(events, features, |events|);
  }
}
