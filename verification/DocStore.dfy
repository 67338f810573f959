/** The expiring document store (pkg/kvclient/doc_methods.go) and what it refines: a plain log of
    saves indexed by transaction id. */
module DocStore {
  import opened Common
  import R = Redict

  const TTL: nat := 10_000

  // ---------- keys ----------

  function MkKey(transactionId: string, docType: string): string {
    "doc:" + transactionId + ":" + docType
  }

  function SignedKey(transactionId: string): string { MkKey(transactionId, "signed") }

  /** A formatted key determines both of its parts, for every id, as long as types are
      colon-free. */
  lemma MkKeyInjective(id1: string, type1: string, id2: string, type2: string)
    requires NoColon(type1) && NoColon(type2) && MkKey(id1, type1) == MkKey(id2, type2)
    ensures id1 == id2 && type1 == type2
  {
    var k1, k2 := MkKey(id1, type1), MkKey(id2, type2);
    var c1, c2 := |k1| - |type1| - 1, |k2| - |type2| - 1;
    assert k1[c1] == ':' && k2[c2] == ':';
    assert forall i :: c1 < i < |k1| ==> k1[i] == type1[i - c1 - 1];
    assert forall i :: c2 < i < |k2| ==> k2[i] == type2[i - c2 - 1];
    assert c1 == c2;
    assert k1[c1 + 1..] == type1 && k2[c2 + 1..] == type2;
    assert k1[4..c1] == id1 && k2[4..c2] == id2;
  }

  /** The condition on types is needed: ids are not restricted, so a type with a colon collides. */
  lemma MkKeyCollision(id: string, before: string, after: string)
    ensures MkKey(id + ":" + before, after) == MkKey(id, before + ":" + after)
    ensures (id + ":" + before) != id
  {
    assert |id + ":" + before| > |id|;
  }

  lemma SignedKeyInjective(id1: string, id2: string)
    ensures SignedKey(id1) == SignedKey(id2) ==> id1 == id2
  {
    if SignedKey(id1) == SignedKey(id2) { MkKeyInjective(id1, "signed", id2, "signed"); }
  }

  // ---------- operations on values ----------

  datatype SaveResult = Saved | NoTransactionId | HSetFailed | ExpireFailed

  /** HSET and EXPIRE are two separate commands, executed at two moments `t1` and `t2`, and either can
      fail before or after the server has executed it. */
  function SaveSigned(kv: R.Hashes, doc: Document, hset: Call, expire: Call, t1: nat, t2: nat): (R.Hashes, SaveResult) {
    if doc.transactionId == "" then (kv, NoTransactionId) else
    var key := SignedKey(doc.transactionId);
    var kv1 := if hset.reached then R.HSet(kv, key, doc, t1) else kv;
    if !hset.response.Acked? then (kv1, HSetFailed) else
    var kv2 := if expire.reached then R.Expire(kv1, key, TTL, t2) else kv1;
    if !expire.response.Acked? then (kv2, ExpireFailed) else (kv2, Saved)
  }

  /** The time a save takes: the second command is only reached after the first was confirmed. */
  function Elapsed(r: SaveResult, delay: nat): nat { if r in {Saved, ExpireFailed} then delay else 0 }

  function GetSigned(kv: R.Hashes, transactionId: string, now: nat): Document {
    R.HGetAll(kv, SignedKey(transactionId), now)
  }

  predicate ExistsSigned(kv: R.Hashes, transactionId: string, now: nat) {
    R.Live(kv, SignedKey(transactionId), now)
  }

  /** Frame: whatever happens to the two commands, saving under one id changes no read of another,
      now or later. */
  lemma SaveFrame(kv: R.Hashes, doc: Document, hset: Call, expire: Call, t1: nat, t2: nat, other: string, later: nat)
    requires other != doc.transactionId
    ensures var kv' := SaveSigned(kv, doc, hset, expire, t1, t2).0;
            GetSigned(kv', other, later) == GetSigned(kv, other, later)
            && (ExistsSigned(kv', other, later) <==> ExistsSigned(kv, other, later))
  {
    SignedKeyInjective(doc.transactionId, other);
  }

  /** An entry that is still there when HSET comes, and runs out before EXPIRE does: the new document
      inherits the old deadline, and EXPIRE silently finds nothing. */
  predicate RunsOutBetween(kv: R.Hashes, transactionId: string, t1: nat, t2: nat) {
    ExistsSigned(kv, transactionId, t1) && !ExistsSigned(kv, transactionId, t2)
  }

  /** What a save that returned nil guarantees, for every state of the store and every delay between
      the two commands: the document is readable for exactly ten seconds from the EXPIRE on, unless an older
      entry ran out between the commands, and then it is not readable at all from then on. */
  lemma SavedIsReadable(kv: R.Hashes, doc: Document, hset: Call, expire: Call, t1: nat, t2: nat, age: nat)
    requires hset.Possible() && expire.Possible() && t1 <= t2
    ensures var (kv', r) := SaveSigned(kv, doc, hset, expire, t1, t2);
            var readable := !RunsOutBetween(kv, doc.transactionId, t1, t2) && age < 10_000;
            r.Saved? ==>
              && GetSigned(kv', doc.transactionId, t2 + age) == (if readable then doc else ZERO)
              && (ExistsSigned(kv', doc.transactionId, t2 + age) <==> readable)
  {
  }

  /** Which error a save returns, and that one without an id does nothing. */
  lemma SaveErrors(kv: R.Hashes, doc: Document, hset: Call, expire: Call, t1: nat, t2: nat)
    ensures var (kv', r) := SaveSigned(kv, doc, hset, expire, t1, t2);
            && (r == NoTransactionId <==> doc.transactionId == "")
            && (r == HSetFailed <==> doc.transactionId != "" && !hset.response.Acked?)
            && (r == ExpireFailed <==> doc.transactionId != "" && hset.response.Acked? && !expire.response.Acked?)
            && (r == Saved <==> doc.transactionId != "" && hset.response.Acked? && expire.response.Acked?)
            && (doc.transactionId == "" ==> kv' == kv)
            && (forall key :: key != "doc:" + doc.transactionId + ":signed" ==>
                  (key in kv' <==> key in kv) && (key in kv ==> kv'[key] == kv[key]))
  {
  }

  /** What a save can leave behind, succeeding or not, at any later time.  If HSET was not executed, the
      id reads as if nothing had happened.  If EXPIRE was executed after it, the new document is
      readable for ten seconds, unless an older entry ran out in between.  Otherwise it is readable
      for as long as the older entry was going to be, and for ever if there was none; an entry is
      left without a deadline in that case alone. */
  lemma SaveLeaves(kv: R.Hashes, doc: Document, hset: Call, expire: Call, t1: nat, t2: nat, age: nat)
    requires doc.transactionId != "" && hset.Possible() && expire.Possible() && t1 <= t2
    ensures var (kv', id) := (SaveSigned(kv, doc, hset, expire, t1, t2).0, doc.transactionId);
            var (key, expired) := (SignedKey(id), hset.response.Acked? && expire.reached);
            var lasts := if expired then !RunsOutBetween(kv, id, t1, t2) && age < 10_000
                         else !ExistsSigned(kv, id, t1) || ExistsSigned(kv, id, t2 + age);
            && GetSigned(kv', id, t2 + age)
               == (if !hset.reached then GetSigned(kv, id, t2 + age) else if lasts then doc else ZERO)
            && (ExistsSigned(kv', id, t2 + age) <==> if hset.reached then lasts else ExistsSigned(kv, id, t2 + age))
            && ((key in kv' && kv'[key].deadline.None?) <==>
                !expired && ((key in kv && kv[key].deadline.None?) || (hset.reached && !R.Live(kv, key, t1))))
  {
  }

  // ---------- the store in place ----------

  /** `Doc` wraps the Redict client and writes through it. */
  class Doc {
    const client: R.Server

    constructor (client: R.Server)
      ensures this.client == client
    {
      this.client := client;
    }

    /** `delay` is the time between the two commands. */
    method Save(doc: Document, hset: Call, expire: Call, delay: nat) returns (err: SaveResult)
      modifies client`hashes, client`now
      ensures (client.hashes, err)
           == SaveSigned(old(client.hashes), doc, hset, expire, old(client.now), old(client.now) + delay)
      ensures client.now == old(client.now) + Elapsed(err, delay)
      ensures Elapsed(err, delay) == if doc.transactionId != "" && hset.response.Acked? then delay else 0
    {
      if doc.transactionId == "" { return NoTransactionId; }
      var ok := client.HSET(SignedKey(doc.transactionId), doc, hset);
      if !ok { return HSetFailed; }
      client.Wait(delay);
      ok := client.EXPIRE(SignedKey(doc.transactionId), TTL, expire);
      if !ok { return ExpireFailed; }
      return Saved;
    }

    method Get(transactionId: string, call: Call) returns (r: Option<Document>)
      ensures r == if call.response.Acked? then Some(GetSigned(client.hashes, transactionId, client.now)) else None
      ensures r.Some? ==>
                r.value == var key := "doc:" + transactionId + ":signed";
                           if R.Live(client.hashes, key, client.now) then client.hashes[key].doc
                           else Document("", "", "", "", 0, "")
    {
      if !call.response.Acked? { return None; }
      assert SignedKey(transactionId) == "doc:" + transactionId + ":signed";
      r := Some(R.HGetAll(client.hashes, SignedKey(transactionId), client.now));
    }

    /** A command that fails is indistinguishable from absence. */
    method Exists(transactionId: string, call: Call) returns (b: bool)
      ensures b <==> call.response.Acked? && ExistsSigned(client.hashes, transactionId, client.now)
    {
      b := call.response.Acked? && R.Live(client.hashes, SignedKey(transactionId), client.now);
    }
  }

  // ---------- refinement ----------

  /** A history of the store in which all commands succeed; `delay` passes between the HSET and the
      EXPIRE of a save. */
  datatype Op = Save(doc: Document, delay: nat) | Tick(millis: nat)

  function Run(ops: seq<Op>): (R.Hashes, nat) {
    if ops == [] then (map[], 0) else
    var (kv, now) := Run(ops[..|ops| - 1]);
    match ops[|ops| - 1]
    case Save(doc, delay) => (SaveSigned(kv, doc, OK, OK, now, now + delay).0, now + delay)
    case Tick(millis) => (kv, now + millis)
  }

  /** The abstract store keeps no state at all: it looks back through the log for the last save under
      the id and checks its age.  A save counts for nothing if it has no id, and it takes the id out
      of sight if what was saved before was readable when it began and no longer when it ended. */
  function LastSaved(ops: seq<Op>, transactionId: string, age: nat): Option<Document> {
    if ops == [] then None else
    var earlier := ops[..|ops| - 1];
    match ops[|ops| - 1]
    case Save(doc, delay) =>
      if doc.transactionId != transactionId || transactionId == "" then LastSaved(earlier, transactionId, age + delay)
      else if LastSaved(earlier, transactionId, 0).Some? && LastSaved(earlier, transactionId, delay).None? then None
      else if age < TTL then Some(doc) else None
    case Tick(millis) => LastSaved(earlier, transactionId, age + millis)
  }

  /** The concrete store agrees with an answer of the log. */
  predicate Agrees(kv: R.Hashes, transactionId: string, at: nat, answer: Option<Document>) {
    && (ExistsSigned(kv, transactionId, at) <==> answer.Some?)
    && GetSigned(kv, transactionId, at) == if answer.Some? then answer.value else ZERO
  }

  lemma {:induction false} CacheRefinesLogAt(ops: seq<Op>, transactionId: string, age: nat)
    ensures Agrees(Run(ops).0, transactionId, Run(ops).1 + age, LastSaved(ops, transactionId, age))
    decreases |ops|
  {
    if ops != [] {
      var earlier := ops[..|ops| - 1];
      var (kv, now) := Run(earlier);
      match ops[|ops| - 1] {
        case Save(doc, delay) =>
          if doc.transactionId == transactionId && transactionId != "" {
            CacheRefinesLogAt(earlier, transactionId, 0);
            CacheRefinesLogAt(earlier, transactionId, delay);
            SavedIsReadable(kv, doc, OK, OK, now, now + delay, age);
          } else {
            if doc.transactionId != transactionId {
              SaveFrame(kv, doc, OK, OK, now, now + delay, transactionId, now + delay + age);
            }
            CacheRefinesLogAt(earlier, transactionId, age + delay);
          }
        case Tick(millis) =>
          CacheRefinesLogAt(earlier, transactionId, age + millis);
      }
    }
  }

  /** After any history, with any delays between the two commands of a save, an entry exists under an id
      exactly when the log has an answer for it, and reading gives that answer or the zero
      document. */
  lemma CacheRefinesLog(ops: seq<Op>, transactionId: string)
    ensures Agrees(Run(ops).0, transactionId, Run(ops).1, LastSaved(ops, transactionId, 0))
  {
    CacheRefinesLogAt(ops, transactionId, 0);
  }

  /** Without delays the answer is the last document saved under the id if it is younger than TTL. */
  lemma {:induction false} PromptSaves(ops: seq<Op>, transactionId: string, age: nat)
    requires forall k :: 0 <= k < |ops| && ops[k].Save? ==> ops[k].delay == 0
    ensures LastSaved(ops, transactionId, age) == LastYoungerThan(ops, transactionId, age)
    decreases |ops|
  {
    if ops != [] {
      PromptSaves(ops[..|ops| - 1], transactionId, if ops[|ops| - 1].Tick? then age + ops[|ops| - 1].millis else age);
    }
  }

  function LastYoungerThan(ops: seq<Op>, transactionId: string, age: nat): Option<Document> {
    if ops == [] then None else
    var earlier := ops[..|ops| - 1];
    match ops[|ops| - 1]
    case Save(doc, _) =>
      if doc.transactionId != transactionId || transactionId == "" then LastYoungerThan(earlier, transactionId, age)
      else if age < TTL then Some(doc) else None
    case Tick(millis) => LastYoungerThan(earlier, transactionId, age + millis)
  }

  /** A save that returned nil and left nothing readable: saved once, and saved again 9999 ms later
      with one millisecond between HSET and EXPIRE. */
  lemma SavedInVain(doc: Document)
    requires doc.transactionId != ""
    ensures var (kv, now) := Run([Save(doc, 0), Tick(TTL - 1)]);
            var (kv', r) := SaveSigned(kv, doc, OK, OK, now, now + 1);
            r.Saved? && GetSigned(kv, doc.transactionId, now) == doc
            && GetSigned(kv', doc.transactionId, now + 1) == ZERO
  {
    var ops := [Save(doc, 0), Tick(TTL - 1)];
    assert ops[..1] == [Save(doc, 0)] && ops[..1][..0] == [];
    assert Run(ops[..1]) == (SaveSigned(map[], doc, OK, OK, 0, 0).0, 0);
  }
}
