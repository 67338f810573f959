/** HSET and EXPIRE are separate commands, so an entry can be left without a deadline.  When can it
    stay that way? */
module Orphans {
  import opened Common
  import opened Pipeline
  import opened Safety
  import opened Theorems
  import C = Cacher
  import D = DocStore
  import K = Keywords
  import R = Redict
  import S = Sealer
  import W = WorkQueue

  /** The message is handed to a cacher while no other cacher works on it. */
  ghost predicate Solo(s: State, e: Event) {
    e.Deliver? ==> forall j :: 0 <= j < |s.cachers| ==> s.cachers[j].CIdle? || s.cachers[j].n != e.n
  }

  ghost predicate SoloRun(c: Config, s: State, events: seq<Event>)
    requires Possible(c, s, events)
    decreases |events|
  {
    events == [] || (Solo(s, events[0]) && SoloRun(c, Step(c, s, events[0]), events[1..]))
  }

  /** Messages in work are retained and have one worker each. */
  ghost predicate OneWorker(s: State) {
    && (forall j :: 0 <= j < |s.cachers| && !s.cachers[j].CIdle? ==> s.cachers[j].n in s.cache.live)
    && (forall j, k :: 0 <= j < k < |s.cachers| && !s.cachers[j].CIdle? && !s.cachers[k].CIdle?
                       ==> s.cachers[j].n != s.cachers[k].n)
  }

  /** Every key knows its creator, a message for that very key; while it has no deadline the
      creator is retained or its id was given up; and it has one by the time its creator is about to
      be acked as saved. */
  ghost predicate Created(s: State) { CreatedIn(s.kv, s.creators, s.cache, s.cachers, s.forfeited) }

  ghost predicate CreatedIn(kv: R.Hashes, creators: map<string, nat>, q: W.Queue<SealReply>, cachers: seq<CacherPc>,
                            forfeited: set<string>) {
    && (forall key :: key in kv ==> key in creators)
    && (forall key :: key in creators ==> creators[key] < |q.log| && key == D.SignedKey(q.log[creators[key]].id))
    && (forall key :: key in kv && key in creators && kv[key].deadline.None? && creators[key] < |q.log|
                      ==> creators[key] in q.live || q.log[creators[key]].id in forfeited)
    && (forall key, j :: key in kv && key in creators && 0 <= j < |cachers| && AcksSaved(cachers[j], creators[key])
                         ==> kv[key].deadline.Some?)
  }

  /** About to ack message `n` as saved. */
  predicate AcksSaved(pc: CacherPc, n: nat) { pc.CAcking? && pc.saved && pc.n == n }

  ghost predicate Tidy(s: State) { OneWorker(s) && Created(s) }

  lemma WorkerDoc(c: Config, s: State, j: nat)
    requires Inv(c, s) && j < |s.cachers| && (s.cachers[j].CSaving? || s.cachers[j].CExpiring?)
    ensures s.cachers[j].n < |s.cache.log| && s.cachers[j].doc.transactionId == s.cache.log[s.cachers[j].n].id
  {
    hide S.Replies, Kept, Store, Jobs, Shape;
    assert CacherOk(s, s.cachers[j]);
    var m := s.cache.log[s.cachers[j].n];
    assert ReplyOk(c, s, m);
    ReplyFields(c.lib, m.payload.value.sealerBackend, Job(s.requests, m.id), m.payload.value);
  }

  lemma OneWorkerStep(c: Config, s: State, e: Event)
    requires Inv(c, s) && Tidy(s) && Enabled(c, s, e) && Solo(s, e)
    ensures OneWorker(Step(c, s, e))
  {
    hide S.Replies, K.IsUuid, C.Decoded, R.HSet, R.Expire, R.Live, D.SignedKey, Created, Inv, Step, Enabled;
    if CacherEnabled(s, e) {
      CacherFrame(s, e);
      CacherStepIsStep(c, s, e);
      var s' := CacherStep(s, e);
      assert s'.cachers[e.j].CIdle? || e.Deliver? || s'.cachers[e.j].n == s.cachers[e.j].n;
      assert e.AckReply? || s'.cache == s.cache;
    } else {
      OthersFrame(c, s, e);
    }
  }

  /** Writing under the key of message `n` while nobody is about to ack `n` as saved. */
  lemma WriteCreated(kv: R.Hashes, creators: map<string, nat>, q: W.Queue<SealReply>, cachers: seq<CacherPc>,
                     forfeited: set<string>, n: nat, doc: Document, now: nat)
    requires CreatedIn(kv, creators, q, cachers, forfeited) && n in q.live && n < |q.log|
    requires forall j :: 0 <= j < |cachers| ==> !AcksSaved(cachers[j], n)
    ensures var key := D.SignedKey(q.log[n].id);
            CreatedIn(R.HSet(kv, key, doc, now), if R.Live(kv, key, now) then creators else creators[key := n],
                      q, cachers, forfeited)
  {
    hide D.SignedKey, AcksSaved;
  }

  lemma CreatedByHSet(c: Config, s: State, e: Event)
    requires Inv(c, s) && Tidy(s) && CacherEnabled(s, e) && e.HSet?
    ensures Created(CacherStep(s, e))
  {
    hide D.SignedKey, Inv, R.HSet, R.Live;
    WorkerDoc(c, s, e.j);
    var s', pc := CacherStep(s, e), s.cachers[e.j];
    assert CreatedIn(s.kv, s.creators, s.cache, s'.cachers, s.forfeited) by {
      assert forall j, n :: 0 <= j < |s.cachers| && AcksSaved(s'.cachers[j], n) ==> AcksSaved(s.cachers[j], n);
    }
    hide CreatedIn;
    if pc.doc.transactionId != "" && e.call.reached {
      WriteCreated(s.kv, s.creators, s.cache, s'.cachers, s.forfeited, pc.n, pc.doc, s.now);
    }
  }

  lemma CreatedByExpire(c: Config, s: State, e: Event)
    requires Inv(c, s) && Tidy(s) && CacherEnabled(s, e) && e.Expire?
    ensures Created(CacherStep(s, e))
  {
    hide D.SignedKey, Inv;
    WorkerDoc(c, s, e.j);
    var s' := CacherStep(s, e);
    assert s'.cache == s.cache && s'.creators == s.creators && s'.kv.Keys == s.kv.Keys;
  }

  lemma CreatedByOther(c: Config, s: State, e: Event)
    requires Tidy(s) && CacherEnabled(s, e) && !e.HSet? && !e.Expire?
    ensures Created(CacherStep(s, e))
  {
    hide D.SignedKey, C.Decoded, R.HSet, R.Expire, R.Live;
    var s' := CacherStep(s, e);
    assert s'.kv == s.kv && s'.creators == s.creators && s'.cache.log == s.cache.log;
    assert s'.cachers[e.j].CAcking? ==> !s'.cachers[e.j].saved;
  }

  lemma CreatedStep(c: Config, s: State, e: Event)
    requires Inv(c, s) && Tidy(s) && Enabled(c, s, e)
    ensures Created(Step(c, s, e))
  {
    hide Inv, OneWorker, Step, Enabled, CacherStep, CacherEnabled, D.SignedKey;
    if CacherEnabled(s, e) {
      hide Created;
      CacherStepIsStep(c, s, e);
      if e.HSet? {
        CreatedByHSet(c, s, e);
      } else if e.Expire? {
        CreatedByExpire(c, s, e);
      } else {
        CreatedByOther(c, s, e);
      }
    } else {
      OthersFrame(c, s, e);
      var s' := Step(c, s, e);
      assert forall key :: key in s.creators ==> s'.cache.log[s.creators[key]] == s.cache.log[s.creators[key]];
    }
  }

  lemma {:induction false} TidyRun(c: Config, s: State, events: seq<Event>)
    requires Inv(c, s) && Tidy(s) && Possible(c, s, events) && SoloRun(c, s, events)
    ensures Tidy(Run(c, s, events))
    decreases |events|
  {
    hide Inv, OneWorker, Created, Enabled, Step, Solo, CacherEnabled, CacherStep;
    if events != [] {
      var e := events[0];
      StepInv(c, s, e);
      OneWorkerStep(c, s, e);
      CreatedStep(c, s, e);
      TidyRun(c, Step(c, s, e), events[1..]);
    }
  }

  /** No orphaned immortal entry: in a run that never gives one message to two cachers at a time, every
      entry without a deadline was created by a CACHE message for its id that is still retained, or
      the id was given up by an ack after lost naks, whatever crashed or failed in between. */
  lemma NoImmortalOrphan(c: Config, events: seq<Event>, t: string)
    requires Possible(c, Init(c), events) && SoloRun(c, Init(c), events)
    ensures var s := Run(c, Init(c), events); var key := D.SignedKey(t);
            key in s.kv && s.kv[key].deadline.None? ==>
              t in s.forfeited
              || (key in s.creators && s.creators[key] in s.cache.live && s.creators[key] < |s.cache.log|
                  && s.cache.log[s.creators[key]].id == t)
  {
    hide Inv, Enabled, Step, SoloRun, OneWorker;
    var s := Run(c, Init(c), events);
    assert Tidy(Init(c)) by { InitTidy(c); }
    InitInv(c);
    TidyRun(c, Init(c), events);
    if D.SignedKey(t) in s.creators {
      D.SignedKeyInjective(t, s.cache.log[s.creators[D.SignedKey(t)]].id);
    }
  }

  lemma InitTidy(c: Config)
    ensures Tidy(Init(c))
  {
  }

  /** While naks can be sent, the creator is always there. */
  lemma NoImmortalOrphanWhenNaksAreSent(c: Config, events: seq<Event>, t: string)
    requires Possible(c, Init(c), events) && SoloRun(c, Init(c), events)
    requires forall k :: 0 <= k < |events| ==> !LostNak(events[k])
    ensures var s := Run(c, Init(c), events); var key := D.SignedKey(t);
            key in s.kv && s.kv[key].deadline.None? ==>
              key in s.creators && s.creators[key] in s.cache.live && s.creators[key] < |s.cache.log|
              && s.cache.log[s.creators[key]].id == t
  {
    hide Enabled, Step, SoloRun;
    NothingForfeitedRun(c, Init(c), events);
    NoImmortalOrphan(c, events, t);
  }

  // ---------- the store empties ----------

  ghost predicate Deadlines(s: State) {
    forall key :: key in s.kv && s.kv[key].deadline.Some? ==> s.kv[key].deadline.value <= s.now + D.TTL
  }

  lemma DeadlinesStep(c: Config, s: State, e: Event)
    requires Deadlines(s) && Enabled(c, s, e)
    ensures Deadlines(Step(c, s, e))
  {
    hide Enabled, Step, D.SignedKey, C.Decoded;
    if CacherEnabled(s, e) {
      CacherStepIsStep(c, s, e);
      CacherFrame(s, e);
    } else {
      OthersFrame(c, s, e);
    }
  }

  lemma {:induction false} DeadlinesRun(c: Config, s: State, events: seq<Event>)
    requires Deadlines(s) && Possible(c, s, events)
    ensures Deadlines(Run(c, s, events))
    decreases |events|
  {
    hide Deadlines, Enabled, Step;
    if events != [] {
      DeadlinesStep(c, s, events[0]);
      DeadlinesRun(c, Step(c, s, events[0]), events[1..]);
    }
  }

  /** The cache forgets: once CACHE is empty after such a run, nothing is readable any more ten seconds
      later, except under ids that were given up. */
  lemma StoreEmpties(c: Config, events: seq<Event>, t: string)
    requires Possible(c, Init(c), events) && SoloRun(c, Init(c), events)
    ensures var s := Run(c, Init(c), events);
            s.cache.live == {} && t !in s.forfeited ==> !D.ExistsSigned(s.kv, t, s.now + D.TTL)
  {
    hide Enabled, Step, SoloRun;
    DeadlinesRun(c, Init(c), events);
    NoImmortalOrphan(c, events, t);
  }
}
