/** One predictor replica: src/aether/stream/predictor.py. */
module Predicting {
  import opened Prelude
  import opened Sessions

  const MIN_EVENTS_TO_SCORE: nat := 2

  datatype Prediction = Prediction(state: Session, probability: real, partition: int)

  datatype Stats = Stats(consumed: nat, scored: nat, highRisk: nat, open: nat, expired: nat)

  /** What a replica holds, as values. */
  datatype Held = Held(sessions: map<string, Session>, partitions: map<string, int>, watermarks: map<int, int>)

  function Get<K, V>(m: map<K, V>, k: K, default: V): V {
    if k in m then m[k] else default
  }

  function Handled(v: Held, e: Event, p: int): Held {
    Held(v.sessions[e.session := Step(Get(v.sessions, e.session, NewSession(e.session)), e)],
         v.partitions[e.session := p],
         v.watermarks[p := Max(Get(v.watermarks, p, 0), e.ts)])
  }

  /** A session is scored once a cart is open and it has had two events. */
  predicate Scores(s: Session) {
    s.HasOpenCart() && s.events >= MIN_EVENTS_TO_SCORE
  }

  /** Expired by the progress of its own partition. */
  predicate Stale(v: Held, id: string, timeout: int)
    requires id in v.sessions
  {
    var state := v.sessions[id];
    state.IsExpired(Get(v.watermarks, Get(v.partitions, id, -1), state.lastTs), timeout)
  }

  function StaleIn(v: Held, timeout: int): set<string> {
    set id | id in v.sessions && Stale(v, id, timeout)
  }

  function Swept(v: Held, timeout: int): Held {
    var stale := StaleIn(v, timeout);
    Held(v.sessions - stale, v.partitions - stale, v.watermarks)
  }

  function Dropped(v: Held, revoked: set<int>): Held {
    var owned := set id | id in v.partitions && v.partitions[id] in revoked;
    Held(v.sessions - owned, v.partitions - owned, v.watermarks - revoked)
  }

  class Predictor {
    const model: Session -> real
    const threshold: real
    const timeout: int
    var sessions: map<string, SessionState>
    var partitions: map<string, int>
    var watermarks: map<int, int>
    var stats: Stats

    ghost predicate Separate()
      reads this`sessions
    {
      forall a, b :: a in sessions && b in sessions && a != b ==> sessions[a] != sessions[b]
    }

    ghost function States(): (m: map<string, Session>)
      reads this`sessions, sessions.Values
      ensures m.Keys == sessions.Keys
    {
      map id | id in sessions :: sessions[id].Value()
    }

    ghost function View(): Held
      reads this`sessions, this`partitions, this`watermarks, sessions.Values
    {
      Held(States(), partitions, watermarks)
    }

    constructor (model: Session -> real, threshold: real, timeout: int)
      ensures Separate() && View() == Held(map[], map[], map[])
      ensures this.model == model && this.threshold == threshold && this.timeout == timeout
      ensures stats == Stats(0, 0, 0, 0, 0)
    {
      this.model, this.threshold, this.timeout := model, threshold, timeout;
      sessions, partitions, watermarks, stats := map[], map[], map[], Stats(0, 0, 0, 0, 0);
    }

    /** The state of a session, made if it is new. */
    method Fold(e: Event) returns (state: SessionState)
      requires Separate()
      modifies this`sessions, sessions.Values
      ensures Separate() && fresh(sessions.Values - old(sessions.Values))
      ensures e.session in sessions && state == sessions[e.session] && state.Value() == States()[e.session]
      ensures States() == old(States())[e.session := Step(Get(old(States()), e.session, NewSession(e.session)), e)]
    {
      hide Step;
      if e.session !in sessions {
        var created := new SessionState(e.session);
        sessions := sessions[e.session := created];
      }
      state := sessions[e.session];
      assert state.Value() == Get(old(States()), e.session, NewSession(e.session));
      state.Update(e);
    }

    /** Folds one event into its session, and scores it when there is something to abandon. */
    method Handle(e: Event, p: int) returns (r: Option<Prediction>)
      requires Separate()
      modifies this, sessions.Values
      ensures Separate() && fresh(sessions.Values - old(sessions.Values))
      ensures View() == Handled(old(View()), e, p)
      ensures var s := View().sessions[e.session];
        r == if Scores(s) then Some(Prediction(s, model(s), p)) else None
      ensures stats.consumed == old(stats.consumed) + 1
      ensures stats.scored == old(stats.scored) + if r.Some? then 1 else 0
      ensures stats.highRisk == old(stats.highRisk) + if r.Some? && r.value.probability >= threshold then 1 else 0
    {
      hide Step, SessionState.Value, Scores, Predictor.Separate, Predictor.States;
      var state := Fold(e);
      partitions := partitions[e.session := p];
      stats := stats.(consumed := stats.consumed + 1);
      watermarks := watermarks[p := Max(Get(watermarks, p, 0), e.ts)];
      assert View() == Handled(old(View()), e, p);
      r := Score(state.Value(), p);
    }

    method Score(s: Session, p: int) returns (r: Option<Prediction>)
      modifies this`stats
      ensures r == if Scores(s) then Some(Prediction(s, model(s), p)) else None
      ensures stats.consumed == old(stats.consumed)
      ensures stats.scored == old(stats.scored) + if r.Some? then 1 else 0
      ensures stats.highRisk == old(stats.highRisk) + if r.Some? && r.value.probability >= threshold then 1 else 0
    {
      if !s.HasOpenCart() || s.events < MIN_EVENTS_TO_SCORE {
        return None;
      }
      var probability := model(s);
      stats := stats.(scored := stats.scored + 1);
      if probability >= threshold {
        stats := stats.(highRisk := stats.highRisk + 1);
      }
      r := Some(Prediction(s, probability, p));
    }

    /** Drops the sessions their own partition has left behind. */
    method Sweep() returns (count: nat)
      requires Separate()
      modifies this
      ensures Separate() && sessions.Values <= old(sessions.Values)
      ensures View() == Swept(old(View()), timeout)
      ensures count == |StaleIn(old(View()), timeout)|
      ensures stats.expired == old(stats.expired) + count && stats.open == |sessions|
    {
      hide SessionState.Value, StaleIn, Predictor.States, Predictor.Separate;
      var stale := StaleIds();
      Forget(stale);
      stats := stats.(expired := stats.expired + |stale|, open := |sessions|);
      count := |stale|;
    }

    method Forget(ids: set<string>)
      requires Separate()
      modifies this`sessions, this`partitions
      ensures Separate() && sessions.Values <= old(sessions.Values)
      ensures View() == Held(old(View()).sessions - ids, old(View()).partitions - ids, old(View()).watermarks)
    {
      hide SessionState.Value;
      sessions := sessions - ids;
      partitions := partitions - ids;
    }

    function StaleIds(): (stale: set<string>)
      reads this, sessions.Values
      ensures stale == StaleIn(View(), timeout)
    {
      assert forall id :: id in sessions ==> View().sessions[id] == sessions[id].Value();
      set id | id in sessions
        && sessions[id].Value().IsExpired(Get(watermarks, Get(partitions, id, -1), sessions[id].lastTs), timeout)
    }

    /** Forgets every session that arrived on a revoked partition. */
    method DropPartitions(revoked: set<int>) returns (count: nat)
      requires Separate()
      modifies this
      ensures Separate() && sessions.Values <= old(sessions.Values)
      ensures View() == Dropped(old(View()), revoked)
      ensures count == |set id | id in old(partitions) && old(partitions)[id] in revoked|
    {
      hide SessionState.Value;
      var owned := set id | id in partitions && partitions[id] in revoked;
      Forget(owned);
      watermarks := watermarks - revoked;
      count := |owned|;
    }
  }
}
