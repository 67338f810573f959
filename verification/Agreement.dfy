/** Duplicate sealing: two sealers may work on one job and produce two different signatures.  The
    deduplication window of CACHE decides whether clients can notice. */
module Agreement {
  import opened Common
  import opened Pipeline
  import opened Safety
  import opened Theorems
  import C = Cacher
  import D = DocStore
  import K = Keywords
  import R = Redict
  import S = Sealer
  import W = WorkQueue

  /** The time of the first publish for `id` on CACHE that reached the server. */
  function First(attempts: seq<(string, nat)>, id: string): Option<nat> {
    if attempts == [] then None
    else if attempts[0].0 == id then Some(attempts[0].1)
    else First(attempts[1..], id)
  }

  lemma {:induction false} FirstGrows(attempts: seq<(string, nat)>, last: (string, nat), id: string)
    ensures First(attempts + [last], id)
         == if First(attempts, id).Some? then First(attempts, id) else if last.0 == id then Some(last.1) else None
    decreases |attempts|
  {
    if attempts != [] {
      assert (attempts + [last])[1..] == attempts[1..] + [last];
      FirstGrows(attempts[1..], last, id);
    }
  }

  // ---------- timestamps ----------

  ghost predicate StampOk(q: W.Queue<SealReply>, now: nat, m: W.Msg<SealReply>) {
    m.id in q.dedup && m.at <= q.dedup[m.id] <= now
  }

  /** The copies of one id are at least a window apart. */
  ghost predicate Spaced(q: W.Queue<SealReply>, window: nat) {
    forall i, j :: 0 <= i < j < |q.log| && q.log[i].id == q.log[j].id ==> q.log[i].at + window <= q.log[j].at
  }

  ghost predicate CopyAt(q: W.Queue<SealReply>, id: string, at: nat) {
    exists k :: 0 <= k < |q.log| && q.log[k].id == id && q.log[k].at == at
  }

  /** Every stored copy is stamped by a publish, and `dedup` remembers the last one. */
  ghost predicate Copies(c: Config, q: W.Queue<SealReply>, attempts: seq<(string, nat)>, now: nat) {
    && (forall k :: 0 <= k < |q.log| ==> StampOk(q, now, q.log[k]) && (q.log[k].id, q.log[k].at) in attempts)
    && Spaced(q, c.window)
    && (forall id :: id in q.dedup ==> CopyAt(q, id, q.dedup[id]))
  }

  /** Every publish falls in the window of the last stored copy, and the first one was stored. */
  ghost predicate Attempts(c: Config, q: W.Queue<SealReply>, attempts: seq<(string, nat)>) {
    && (forall a :: a in attempts ==> a.0 in q.dedup && a.1 < q.dedup[a.0] + c.window)
    && (forall id :: id in q.dedup <==> First(attempts, id).Some?)
    && (forall id :: First(attempts, id).Some? ==> CopyAt(q, id, First(attempts, id).value))
    && (forall k :: 0 <= k < |q.log| && First(attempts, q.log[k].id).Some?
                    ==> First(attempts, q.log[k].id).value <= q.log[k].at)
  }

  ghost predicate Stamps(c: Config, q: W.Queue<SealReply>, attempts: seq<(string, nat)>, now: nat) {
    Copies(c, q, attempts, now) && Attempts(c, q, attempts)
  }

  lemma PublishCopies(c: Config, q: W.Queue<SealReply>, attempts: seq<(string, nat)>, now: nat, id: string,
                      payload: Payload<SealReply>)
    requires Copies(c, q, attempts, now)
    ensures var q' := W.Publish(q, id, payload, now, c.window);
            Copies(c, q', attempts + [(id, now)], now)
            && (forall other, at :: CopyAt(q, other, at) ==> CopyAt(q', other, at))
            && (!W.InWindow(q, id, now, c.window) ==> CopyAt(q', id, now))
  {
    if W.InWindow(q, id, now, c.window) {
      assert forall a :: a in attempts ==> a in attempts + [(id, now)];
    } else {
      StoreCopies(c, q, attempts, now, W.Msg(id, payload, now));
    }
  }

  lemma StoreCopies(c: Config, q: W.Queue<SealReply>, attempts: seq<(string, nat)>, now: nat, m: W.Msg<SealReply>)
    requires Copies(c, q, attempts, now) && m.at == now && (m.id in q.dedup ==> q.dedup[m.id] + c.window <= now)
    ensures var q' := W.Queue(q.log + [m], q.live + {|q.log|}, q.dedup[m.id := now]);
            Copies(c, q', attempts + [(m.id, now)], now)
            && (forall other, at :: CopyAt(q, other, at) ==> CopyAt(q', other, at)) && CopyAt(q', m.id, now)
  {
    var q' := W.Queue(q.log + [m], q.live + {|q.log|}, q.dedup[m.id := now]);
    StoreSpaced(c, q, attempts, now, m);
    StoreGrows(q, q', m);
    hide Spaced, CopyAt;
    assert forall k :: 0 <= k < |q.log| ==> q'.log[k] == q.log[k] && StampOk(q, now, q.log[k]);
  }

  lemma StoreSpaced(c: Config, q: W.Queue<SealReply>, attempts: seq<(string, nat)>, now: nat, m: W.Msg<SealReply>)
    requires Copies(c, q, attempts, now) && m.at == now && (m.id in q.dedup ==> q.dedup[m.id] + c.window <= now)
    ensures Spaced(W.Queue(q.log + [m], q.live + {|q.log|}, q.dedup[m.id := now]), c.window)
  {
    hide CopyAt;
    assert forall k :: 0 <= k < |q.log| ==> StampOk(q, now, q.log[k]);
  }

  lemma StoreGrows(q: W.Queue<SealReply>, q': W.Queue<SealReply>, m: W.Msg<SealReply>)
    requires q'.log == q.log + [m]
    ensures (forall other, at :: CopyAt(q, other, at) ==> CopyAt(q', other, at)) && CopyAt(q', m.id, m.at)
  {
    assert q'.log[|q.log|] == m;
    forall other, at | CopyAt(q, other, at) ensures CopyAt(q', other, at) {
      var k :| 0 <= k < |q.log| && q.log[k].id == other && q.log[k].at == at;
      assert q'.log[k].id == other && q'.log[k].at == at;
    }
  }

  lemma CopiesArePast(c: Config, q: W.Queue<SealReply>, attempts: seq<(string, nat)>, now: nat)
    requires Copies(c, q, attempts, now)
    ensures forall id, at: nat :: CopyAt(q, id, at) ==> id in q.dedup && at <= q.dedup[id] <= now
    ensures forall id :: id in q.dedup ==> q.dedup[id] <= now
  {
    forall id | id in q.dedup ensures q.dedup[id] <= now {
      assert CopyAt(q, id, q.dedup[id]);
    }
  }

  lemma PublishStamps(c: Config, q: W.Queue<SealReply>, attempts: seq<(string, nat)>, now: nat, id: string,
                      payload: Payload<SealReply>)
    requires c.window > 0 && Stamps(c, q, attempts, now)
    ensures Stamps(c, W.Publish(q, id, payload, now, c.window), attempts + [(id, now)], now)
  {
    hide First, CopyAt;
    var q' := W.Publish(q, id, payload, now, c.window);
    var attempts' := attempts + [(id, now)];
    forall other ensures First(attempts', other) == if First(attempts, other).Some? then First(attempts, other)
                                                    else if id == other then Some(now) else None
    {
      FirstGrows(attempts, (id, now), other);
    }
    PublishCopies(c, q, attempts, now, id, payload);
    assert Attempts(c, q', attempts') by {
      hide Copies;
      CopiesArePast(c, q, attempts, now);
      assert forall id :: First(attempts, id).Some? ==> First(attempts, id).value <= now;
    }
  }

  lemma StampsStep(c: Config, s: State, e: Event)
    requires c.window > 0 && Enabled(c, s, e) && Stamps(c, s.cache, s.attempts, s.now)
    ensures var s' := Step(c, s, e); Stamps(c, s'.cache, s'.attempts, s'.now) && s.cache.log <= s'.cache.log
  {
    hide S.Replies, K.IsUuid, C.Decoded, R.HSet, R.Expire, R.Live, D.SignedKey, First, Stamps, W.Publish;
    var s' := Step(c, s, e);
    if SealerEnabled(c, s, e) && e.PublishReply? && e.call.reached {
      var pc := s.sealers[e.i];
      PublishStamps(c, s.cache, s.attempts, s.now, s.seal.log[pc.n].id, Json(pc.reply));
      PublishExtends(s.cache, s.seal.log[pc.n].id, Json(pc.reply), s.now, c.window);
    } else {
      assert s'.cache.log == s.cache.log && s'.cache.dedup == s.cache.dedup;
      assert s'.attempts == s.attempts && s.now <= s'.now;
      StampsFrame(c, s.cache, s'.cache, s.attempts, s.now, s'.now);
    }
  }

  lemma PublishExtends(q: W.Queue<SealReply>, id: string, payload: Payload<SealReply>, now: nat, window: nat)
    ensures q.log <= W.Publish(q, id, payload, now, window).log
  {
  }

  lemma StampsFrame(c: Config, q: W.Queue<SealReply>, q': W.Queue<SealReply>, attempts: seq<(string, nat)>,
                    now: nat, now': nat)
    requires Stamps(c, q, attempts, now) && q'.log == q.log && q'.dedup == q.dedup && now <= now'
    ensures Stamps(c, q', attempts, now')
  {
    assert forall id, at :: CopyAt(q, id, at) ==> CopyAt(q', id, at);
  }

  lemma {:induction false} StampsRun(c: Config, s: State, events: seq<Event>)
    requires c.window > 0 && Possible(c, s, events) && Stamps(c, s.cache, s.attempts, s.now)
    ensures var s' := Run(c, s, events); Stamps(c, s'.cache, s'.attempts, s'.now) && s.cache.log <= s'.cache.log
    decreases |events|
  {
    hide Stamps, Enabled, Step;
    if events != [] {
      StampsStep(c, s, events[0]);
      StampsRun(c, Step(c, s, events[0]), events[1..]);
    }
  }

  lemma ReachableStamps(c: Config, s: State)
    requires c.window > 0 && Reachable(c, s)
    ensures Stamps(c, s.cache, s.attempts, s.now)
  {
    hide Enabled, Step;
    var events: seq<Event> :| Possible(c, Init(c), events) && Run(c, Init(c), events) == s;
    StampsRun(c, Init(c), events);
  }

  // ---------- the theorems ----------

  ghost predicate OneCopy(s: State, id: string) {
    forall i, j :: 0 <= i < |s.cache.log| && 0 <= j < |s.cache.log|
                   && s.cache.log[i].id == id && s.cache.log[j].id == id
                   ==> i == j
  }

  ghost predicate AllInWindowOfFirst(c: Config, s: State, id: string) {
    forall a :: a in s.attempts && a.0 == id ==>
      First(s.attempts, id).Some? && a.1 < First(s.attempts, id).value + c.window
  }

  /** However many sealers publish a reply for `id`, CACHE stores at most one of them in the whole run
      exactly when all those publishes arrive within one window of the first. */
  lemma OneCopyIffInWindow(c: Config, s: State, id: string)
    requires c.window > 0 && Reachable(c, s)
    ensures OneCopy(s, id) <==> AllInWindowOfFirst(c, s, id)
  {
    ReachableStamps(c, s);
    if AllInWindowOfFirst(c, s, id) {
      forall i, j | 0 <= i < |s.cache.log| && 0 <= j < |s.cache.log|
                    && s.cache.log[i].id == id && s.cache.log[j].id == id
        ensures i == j
      {
        assert (id, s.cache.log[i].at) in s.attempts && (id, s.cache.log[j].at) in s.attempts;
      }
    }
    if OneCopy(s, id) && id in s.cache.dedup {
      assert CopyAt(s.cache, id, s.cache.dedup[id]) && CopyAt(s.cache, id, First(s.attempts, id).value);
    }
  }

  /** Agreement over the whole run: with the publishes for `t` in one window, any two documents a
      client reads under `t`, at any two moments, are the same document, even when sealers produced
      different signatures for it. */
  lemma ReadersAgree(c: Config, s1: State, events: seq<Event>, t: string)
    requires c.window > 0 && Reachable(c, s1) && Possible(c, s1, events)
    requires AllInWindowOfFirst(c, Run(c, s1, events), t)
    ensures var s2 := Run(c, s1, events);
            D.ExistsSigned(s1.kv, t, s1.now) && D.ExistsSigned(s2.kv, t, s2.now)
            ==> D.GetSigned(s1.kv, t, s1.now) == D.GetSigned(s2.kv, t, s2.now)
  {
    hide Stamps, Enabled, Step, Inv, AllInWindowOfFirst, ReplyTo;
    var s2 := Run(c, s1, events);
    ReachableStamps(c, s1);
    StampsRun(c, s1, events);
    ReachableFrom(c, s1, events);
    OneCopyIffInWindow(c, s2, t);
    if D.ExistsSigned(s1.kv, t, s1.now) && D.ExistsSigned(s2.kv, t, s2.now) {
      ReachableInv(c, s1);
      ReachableInv(c, s2);
      var n1 := StoredIsReply(c, s1, t);
      var n2 := StoredIsReply(c, s2, t);
      assert s2.cache.log[n1] == s1.cache.log[n1];
    }
  }

  lemma ReachableFrom(c: Config, s: State, events: seq<Event>)
    requires Reachable(c, s) && Possible(c, s, events)
    ensures Reachable(c, Run(c, s, events))
  {
    hide Enabled, Step;
    var before: seq<Event> :| Possible(c, Init(c), before) && Run(c, Init(c), before) == s;
    RunConcat(c, Init(c), before, events);
    assert Possible(c, Init(c), before + events);
  }

  /** Outside the window the number of copies is still bounded by time: the copies of one id are
      stored at least a window apart. */
  lemma CopiesAreSpaced(c: Config, s: State, i: nat, j: nat)
    requires c.window > 0 && Reachable(c, s)
    requires i < j < |s.cache.log| && s.cache.log[i].id == s.cache.log[j].id
    ensures s.cache.log[i].at + c.window <= s.cache.log[j].at <= s.now
  {
    ReachableStamps(c, s);
    assert StampOk(s.cache, s.now, s.cache.log[j]);
  }
}
