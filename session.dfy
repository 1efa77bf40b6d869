/** `SessionRepository` (src/repositories/redis/session.repositories.ts): each chat session's
    message history, kept under the session id in a key-value store. The store is a map from
    id to the list of messages; expiry and the JSON encoding are left out. */
module Session {

  /** The store's operations, as the repository performs them. */
  datatype Op<M> = Create(id: string) | Save(id: string, message: M) | Clear(id: string)

  /** Lines 22-25: what `getHistory(id)` reads, `[]` for an id the store does not hold. */
  function HistoryOf<M>(store: map<string, seq<M>>, id: string): seq<M> {
    if id in store then store[id] else []
  }

  /** The store after one operation: a create sets the history to `[]`, a save appends the
      message to what `getHistory` reads, a clear deletes the key. */
  function Apply<M>(store: map<string, seq<M>>, op: Op<M>): (s: map<string, seq<M>>)
    ensures op.Create? ==> HistoryOf(s, op.id) == []
    ensures op.Save? ==> HistoryOf(s, op.id) == HistoryOf(store, op.id) + [op.message]
    ensures op.Clear? ==> op.id !in s && HistoryOf(s, op.id) == []
    ensures forall other :: other != op.id ==> (other in s <==> other in store)
    ensures forall other :: other != op.id ==> HistoryOf(s, other) == HistoryOf(store, other)
  {
    match op
    case Create(id) => store[id := []]
    case Save(id, m) => store[id := HistoryOf(store, id) + [m]]
    case Clear(id) => store - {id}
  }

  /** The store after the operations `ops`, in order. */
  function Replay<M>(store: map<string, seq<M>>, ops: seq<Op<M>>): map<string, seq<M>> {
    if ops == [] then store else Apply(Replay(store, ops[..|ops| - 1]), ops[|ops| - 1])
  }

  /** The operations of `ops` on session `id`, in order. */
  function On<M>(ops: seq<Op<M>>, id: string): seq<Op<M>> {
    if ops == [] then []
    else On(ops[..|ops| - 1], id) + (if ops[|ops| - 1].id == id then [ops[|ops| - 1]] else [])
  }

  /** One operation turns stores that agree on a session's history into stores that still
      agree on it. */
  lemma ApplySameHistory<M>(a: map<string, seq<M>>, b: map<string, seq<M>>, op: Op<M>, id: string)
    requires HistoryOf(a, id) == HistoryOf(b, id)
    ensures HistoryOf(Apply(a, op), id) == HistoryOf(Apply(b, op), id)
  {
  }

  /** Sessions do not interfere: a session's history depends only on the operations on it. */
  lemma {:induction false} SessionsIndependent<M>(store: map<string, seq<M>>, ops: seq<Op<M>>, id: string)
    ensures HistoryOf(Replay(store, ops), id) == HistoryOf(Replay(store, On(ops, id)), id)
  {
    if ops != [] {
      var init, last := ops[..|ops| - 1], ops[|ops| - 1];
      SessionsIndependent(store, init, id);
      var a, b := Replay(store, init), Replay(store, On(init, id));
      if last.id == id {
        var mine := On(init, id) + [last];
        assert mine[..|mine| - 1] == On(init, id);
        assert On(ops, id) == mine;
        ApplySameHistory(a, b, last, id);
      } else {
        assert On(ops, id) == On(init, id) + [] == On(init, id);
        assert Replay(store, ops) == Apply(a, last);
        assert HistoryOf(Apply(a, last), id) == HistoryOf(a, id);
      }
    }
  }

  /** The messages saved since the last create or clear of a session, in order. */
  function SavedSinceReset<M>(ops: seq<Op<M>>): seq<M> {
    if ops == [] then []
    else
      var last := ops[|ops| - 1];
      match last
      case Save(_, m) => SavedSinceReset(ops[..|ops| - 1]) + [m]
      case _ => []
  }

  /** Whether `ops` creates or clears a session somewhere. */
  predicate Resets<M>(ops: seq<Op<M>>) {
    ops != [] && (!ops[|ops| - 1].Save? || Resets(ops[..|ops| - 1]))
  }

  /** A sequence resets exactly when one of its operations is not a save. */
  lemma {:induction false} ResetsSomewhere<M>(ops: seq<Op<M>>)
    ensures Resets(ops) <==> exists k :: 0 <= k < |ops| && !ops[k].Save?
  {
    if ops != [] {
      var init := ops[..|ops| - 1];
      ResetsSomewhere(init);
      if Resets(init) {
        var k :| 0 <= k < |init| && !init[k].Save?;
        assert !ops[k].Save?;
      }
      if !Resets(ops) {
        forall k | 0 <= k < |ops| ensures ops[k].Save? {
          if k < |init| {
            assert ops[k] == init[k];
          }
        }
      }
    }
  }

  /** After operations on one session, its history is the messages saved since it was last
      created or cleared, or everything saved on top of the history it started with. */
  lemma {:induction false} HistoryIsSavesSinceReset<M>(store: map<string, seq<M>>, ops: seq<Op<M>>, id: string)
    requires forall k :: 0 <= k < |ops| ==> ops[k].id == id
    ensures HistoryOf(Replay(store, ops), id) ==
      (if Resets(ops) then [] else HistoryOf(store, id)) + SavedSinceReset(ops)
  {
    if ops != [] {
      var init, last := ops[..|ops| - 1], ops[|ops| - 1];
      assert forall k :: 0 <= k < |init| ==> init[k].id == id by {
        forall k | 0 <= k < |init| ensures init[k].id == id {
          assert init[k] == ops[k];
        }
      }
      HistoryIsSavesSinceReset(store, init, id);
      assert last.id == id;
    }
  }

  class SessionRepository<M> {
    /** The key-value store: session id to message history. */
    var store: map<string, seq<M>>

    constructor(store: map<string, seq<M>>)
      ensures this.store == store
    {
      this.store := store;
    }

    /** Lines 7-9. */
    method CreateSession(sessionId: string)
      modifies this
      ensures store == Apply(old(store), Create(sessionId))
    {
      store := store[sessionId := []];
    }

    /** Lines 11-20: read the history, append, write it back. */
    method SaveMessage(sessionId: string, message: M)
      modifies this
      ensures store == Apply(old(store), Save(sessionId, message))
    {
      var history := GetHistory(sessionId);
      history := history + [message];
      store := store[sessionId := history];
    }

    /** Lines 22-25. */
    method GetHistory(sessionId: string) returns (history: seq<M>)
      ensures history == HistoryOf(store, sessionId)
      ensures sessionId !in store ==> history == []
    {
      if sessionId in store {
        return store[sessionId];
      }
      return [];
    }

    /** Lines 27-29. */
    method ClearSession(sessionId: string)
      modifies this
      ensures store == Apply(old(store), Clear(sessionId))
    {
      store := store - {sessionId};
    }
  }
}
