/** The signing counter against the requests it counts. */
module Counting {
  import opened Common
  import opened Pipeline
  import opened Safety
  import opened Theorems
  import G = Gateway
  import K = Keywords
  import R = Redict
  import S = Sealer
  import W = WorkQueue

  predicate Distinct(ids: seq<string>) { forall i, j :: 0 <= i < j < |ids| ==> ids[i] != ids[j] }

  function Elements(ids: seq<string>): set<string> { set id | id in ids }

  lemma {:induction false} ElementCount(ids: seq<string>)
    ensures |Elements(ids)| <= |ids|
    ensures |Elements(ids)| == |ids| <==> Distinct(ids)
    decreases |ids|
  {
    if ids != [] {
      var last, rest := ids[|ids| - 1], ids[..|ids| - 1];
      ElementCount(rest);
      assert Elements(ids) == Elements(rest) + {last};
      if last in rest {
        assert Elements(ids) == Elements(rest);
        var k :| 0 <= k < |rest| && rest[k] == last;
        assert ids[k] == ids[|ids| - 1];
      } else {
        assert forall i :: 0 <= i < |rest| ==> ids[i] == rest[i];
      }
    }
  }

  /** The ids that ever reached SEAL. */
  function StoredIds(s: State): set<string> { set m | m in s.seal.log :: m.id }

  predicate Busy(pc: GatewayPc, id: string) {
    (pc.GPublishing? && pc.id == id) || (pc.GCounting? && pc.id == id)
  }

  ghost predicate Counts(s: State) {
    && R.Count(s.counters, G.SIGNINGS) == |s.counted|
    && (forall id :: id in s.counted ==> W.Stored(s.seal, id))
    && (forall id :: id in s.returned ==> id in s.counted)
    && Distinct(s.returned)
  }

  /** A request in progress has its id to itself and has not returned it. */
  ghost predicate OwnIds(s: State) {
    && (forall g :: 0 <= g < |s.gateways| && !s.gateways[g].GIdle?
                    ==> s.gateways[g].id in s.requests && s.gateways[g].id !in s.returned)
    && (forall g, h :: 0 <= g < h < |s.gateways| && !s.gateways[g].GIdle? && !s.gateways[h].GIdle?
                       ==> s.gateways[g].id != s.gateways[h].id)
    && (forall id :: id in s.returned ==> id in s.requests)
  }

  /** What only gateways touch. */
  lemma NotGatewayFrame(c: Config, s: State, e: Event)
    requires Enabled(c, s, e) && !GatewayEnabled(s, e)
    ensures var s' := Step(c, s, e);
            && s'.gateways == s.gateways && s'.requests == s.requests && s'.counters == s.counters
            && s'.counted == s.counted && s'.returned == s.returned && s'.seal.log == s.seal.log
  {
    hide S.Replies, CacherStep, CacherEnabled, GatewayEnabled, GatewayStep, W.Publish;
    if SealerEnabled(c, s, e) {
      SealerStepIsStep(c, s, e);
    } else if CacherEnabled(s, e) {
      CacherFrame(s, e);
      CacherStepIsStep(c, s, e);
    }
  }

  lemma GatewayOwnIds(c: Config, s: State, e: Event)
    requires OwnIds(s) && GatewayEnabled(s, e)
    ensures OwnIds(GatewayStep(c, s, e))
  {
    hide K.IsUuid, R.Incr, W.Publish;
  }

  lemma GatewayCounts(c: Config, s: State, e: Event)
    requires Inv(c, s) && Counts(s) && OwnIds(s) && GatewayEnabled(s, e)
    ensures Counts(GatewayStep(c, s, e))
  {
    hide K.IsUuid, S.Replies, Shape, Replies, Kept, Store;
    StoredAgain(c, s, e);
    var s' := GatewayStep(c, s, e);
    GatewayStepIsStep(c, s, e);
    if e.Count? { assert GatewayOk(s, s.gateways[e.g]); }
  }

  lemma {:induction false} CountsRun(c: Config, s: State, events: seq<Event>)
    requires Inv(c, s) && Counts(s) && OwnIds(s) && Possible(c, s, events)
    ensures Counts(Run(c, s, events)) && OwnIds(Run(c, s, events))
    decreases |events|
  {
    hide Inv, Enabled, Step, GatewayEnabled, GatewayStep;
    if events != [] {
      var e := events[0];
      StepInv(c, s, e);
      if GatewayEnabled(s, e) {
        GatewayOwnIds(c, s, e);
        GatewayCounts(c, s, e);
        GatewayStepIsStep(c, s, e);
      } else {
        NotGatewayFrame(c, s, e);
        StoredAgain(c, s, e);
      }
      CountsRun(c, Step(c, s, e), events[1..]);
    }
  }

  /** With any number of concurrent PDFSign calls failing anywhere: the ids returned to clients are
      distinct, were all counted and are all on record in SEAL; the counter is never below the
      number of successful replies; it equals the number of requests counted exactly when no
      request's INCR was executed twice, and then it is at most the number of ids ever stored. */
  lemma CountingSandwich(c: Config, s: State)
    requires Reachable(c, s)
    ensures var counter := R.Count(s.counters, G.SIGNINGS);
            && Distinct(s.returned)
            && Elements(s.returned) <= Elements(s.counted) <= StoredIds(s)
            && |s.returned| <= |Elements(s.counted)| <= counter
            && |Elements(s.counted)| <= |StoredIds(s)|
            && (counter == |Elements(s.counted)| <==> Distinct(s.counted))
            && (Distinct(s.counted) ==> |s.returned| <= counter <= |StoredIds(s)|)
  {
    hide Inv, Enabled, Step;
    var events: seq<Event> :| Possible(c, Init(c), events) && Run(c, Init(c), events) == s;
    InitInv(c);
    CountsRun(c, Init(c), events);
    ElementCount(s.returned);
    ElementCount(s.counted);
    forall id | id in Elements(s.counted) ensures id in StoredIds(s) {
      var n :| 0 <= n < |s.seal.log| && s.seal.log[n].id == id;
      assert s.seal.log[n] in s.seal.log;
    }
    SubsetSize(Elements(s.returned), Elements(s.counted));
    SubsetSize(Elements(s.counted), StoredIds(s));
  }

  /** The promise to a client: an id it was given is on its way or saved, as long as naks are sent. */
  lemma ReturnedIdIsKept(c: Config, events: seq<Event>, id: string)
    requires Possible(c, Init(c), events) && (forall k :: 0 <= k < |events| ==> !LostNak(events[k]))
    ensures var s := Run(c, Init(c), events);
            id in s.returned ==> W.Retained(s.seal, id) || W.Retained(s.cache, id) || id in s.saved
  {
    hide Inv, Enabled, Step;
    InitInv(c);
    CountsRun(c, Init(c), events);
    NoJobLostWhenNaksAreSent(c, events, id);
  }
}
