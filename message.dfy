/**
 * The message cache of src/logic/message.ts. A MessageManager remembers the
 * fetch requests it has sent, keyed by the timestamp that served as their
 * token, and keeps one partition per folder path; a partition holds the
 * folder's messages keyed by sequence number, in the order the keys first
 * arrived. Clocks are natural numbers passed in by the caller, a promise is
 * an id, and resolving a promise appends a Delivery to a log.
 */
module Message {
  import opened Js
  import opened Imap
  import opened Wire

  /** `in2mins()` (src/utils/in2mins is not part of this model): two minutes from now, in milliseconds. */
  const TwoMinutes: nat := 120000

  /** A message as the client keeps it; the envelope and the body are passed through untouched. */
  datatype MailMessage = MailMessage(
    expires: nat,
    body: Payload,
    envelope: Payload,
    flags: set<string>,
    internalDate: string,
    items: seq<string>,
    seqNum: int,
    size: int,
    uid: int)

  /** The message the MailMessage constructor builds from `m` at time `now` (the body structure is dropped). */
  function Mail(m: ImapMessage, now: nat): MailMessage
  {
    MailMessage(now + TwoMinutes, m.body, m.envelope, ToSet(m.flags), m.internalDate, m.items, m.seqNum, m.size, m.uid)
  }

  /** The MailMessage constructor: copy the fields and add the flags one at a time to an empty set. */
  method NewMailMessage(m: ImapMessage, now: nat) returns (r: MailMessage)
    ensures r == Mail(m, now)
  {
    var flags: set<string> := {};
    for k := 0 to |m.flags|
      invariant flags == ToSet(m.flags[..k])
    {
      ToSetSnoc(m.flags, k);
      flags := flags + {m.flags[k]};
    }
    assert m.flags[..|m.flags|] == m.flags;
    r := MailMessage(now + TwoMinutes, m.body, m.envelope, flags, m.internalDate, m.items, m.seqNum, m.size, m.uid);
  }

  /** The sequence numbers carried by `m`. */
  function SeqNums(m: seq<MailMessage>): set<int>
  {
    set x | x in m :: x.seqNum
  }

  /** No message after position `i` of `m` has the sequence number of `m[i]`. */
  predicate LastOfItsNumber(m: seq<MailMessage>, i: nat)
    requires i < |m|
  {
    forall j :: i < j < |m| ==> m[j].seqNum != m[i].seqNum
  }

  /**
   * A partition after `m.forEach(x => store.set(x.SeqNum, x))`: the keys
   * are the old ones and the sequence numbers of `m`, and old keys keep their
   * places (SaveAllKeeps and SaveAllLast say which message each key holds).
   */
  function SaveAll(s: OrderedMap<int, MailMessage>, m: seq<MailMessage>): (r: OrderedMap<int, MailMessage>)
    requires s.Valid()
    ensures r.Valid()
    ensures r.entries.Keys == s.entries.Keys + SeqNums(m)
    ensures |r.keys| >= |s.keys| && r.keys[..|s.keys|] == s.keys
    decreases |m|
  {
    if m == [] then s
    else
      var init := m[..|m| - 1];
      var x := m[|m| - 1];
      assert m == init + [x];
      assert SeqNums(m) == SeqNums(init) + {x.seqNum};
      SaveAll(s, init).Set(x.seqNum, x)
  }

  /** A key that no saved message carries keeps its message: the save merges, it does not replace. */
  lemma {:induction false} SaveAllKeeps(s: OrderedMap<int, MailMessage>, m: seq<MailMessage>, k: int)
    requires s.Valid() && k in s.entries && k !in SeqNums(m)
    ensures SaveAll(s, m).entries[k] == s.entries[k]
    decreases |m|
  {
    if m != [] {
      var init := m[..|m| - 1];
      assert m == init + [m[|m| - 1]];
      assert SeqNums(m) == SeqNums(init) + {m[|m| - 1].seqNum};
      SaveAllKeeps(s, init, k);
    }
  }

  /** Each sequence number of the saved messages holds the last message that carries it. */
  lemma {:induction false} SaveAllLast(s: OrderedMap<int, MailMessage>, m: seq<MailMessage>, i: nat)
    requires s.Valid() && i < |m| && LastOfItsNumber(m, i)
    ensures SaveAll(s, m).entries[m[i].seqNum] == m[i]
    decreases |m|
  {
    var init := m[..|m| - 1];
    assert m == init + [m[|m| - 1]];
    if i < |m| - 1 {
      assert LastOfItsNumber(init, i);
      SaveAllLast(s, init, i);
    }
  }

  /** FolderMessageManager: one folder's messages by sequence number. */
  class FolderMessageManager {
    const expires: nat
    var store: OrderedMap<int, MailMessage>

    constructor (now: nat)
      ensures expires == now + TwoMinutes && store == EmptyMap()
    {
      expires := now + TwoMinutes;
      store := EmptyMap();
    }

    /** saveIncomingMessages: set each message under its sequence number, in order. */
    method SaveIncomingMessages(m: seq<MailMessage>)
      requires store.Valid()
      modifies this`store
      ensures store == SaveAll(old(store), m)
    {
      for k := 0 to |m|
        invariant store == SaveAll(old(store), m[..k])
      {
        assert m[..k + 1][..k] == m[..k];
        store := store.Set(m[k].seqNum, m[k]);
      }
      assert m[..|m|] == m;
    }
  }

  /** A fetch request waiting for its answer: the folder it asked for and the promise it will resolve. */
  datatype PendingCall = PendingCall(path: string, promise: nat)

  /** What fetchMessages returns: a promise still waiting for the server, or one already resolved. */
  datatype Promise = Pending(id: nat) | Resolved(messages: seq<MailMessage>)

  /** The resolution of promise `promise` with `messages`. */
  datatype Delivery = Delivery(promise: nat, messages: seq<MailMessage>)

  class MessageManager {
    /** The connection set by setWS; fetch requests are written to it. */
    var ws: Socket?
    /** fetchCalls: pending requests by token. */
    var fetchCalls: map<int, PendingCall>
    /** store: the partition of each folder path. */
    var store: map<string, FolderMessageManager>
    /** How many promises fetchMessages has handed out waiting for the server; the next one gets this id. */
    var promises: nat
    /** Every promise resolved by updateMessage, in order. */
    var delivered: seq<Delivery>
    /** The partition objects. */
    ghost var Parts: set<object>

    /** The partitions: one object per path, each a valid map of its own. */
    ghost predicate Stored()
      reads this`store, this`ws, this`Parts, Parts
    {
      && this !in Parts && (ws == null || ws !in Parts)
      && (forall p :: p in store ==> store[p] in Parts && store[p].store.Valid())
      && (forall p, q :: p in store && q in store && p != q ==> store[p] != store[q])
    }

    ghost predicate Promised()
      reads this`fetchCalls, this`promises, this`delivered
    {
      PromisesOk(fetchCalls, delivered, promises)
    }

    ghost predicate Valid()
      reads this, Parts
    {
      Stored() && Promised()
    }

    constructor ()
      ensures Valid() && Parts == {}
      ensures ws == null && fetchCalls == map[] && store == map[] && promises == 0 && delivered == []
    {
      ws := null;
      fetchCalls := map[];
      store := map[];
      promises := 0;
      delivered := [];
      Parts := {};
    }

    /** setWS: the connection fetch requests go to. */
    method SetWS(s: Socket)
      requires Valid() && s !in Parts
      modifies this`ws
      ensures Valid() && ws == s
    {
      ws := s;
    }

    /**
     * The effect of fetchMessages(path, start, end, limit) at time `now`.
     * The test `s?.expires || 0 < now` reads as `s?.expires || (0 < now)`,
     * and a partition's expiry date is always truthy, so a request goes out
     * whenever the path has a partition or `now` is positive: the request is
     * recorded under the token `now` (replacing any request recorded under
     * the same token), written to the connection if there is one, and the
     * promise waits for it. Otherwise there is no partition to read and the
     * promise is resolved with no messages.
     */
    twostate predicate Fetched(path: string, start: int, end: int, limit: int, now: nat, r: Promise)
      reads this, ws
    {
      && ws == old(ws) && store == old(store) && delivered == old(delivered)
      && (path in old(store) || 0 < now ==>
        && fetchCalls == old(fetchCalls)[now := PendingCall(path, old(promises))]
        && promises == old(promises) + 1
        && r == Pending(old(promises))
        && (ws != null ==> ws.sent == old(ws.sent) + [Outbound("fetch", FetchArgs(now, path, start, end, limit))]))
      && (path !in old(store) && now == 0 ==>
        && fetchCalls == old(fetchCalls) && promises == old(promises)
        && r == Resolved([])
        && (ws != null ==> ws.sent == old(ws.sent)))
    }

    method FetchMessages(path: string, start: int, end: int, limit: int, now: nat) returns (r: Promise)
      requires Valid()
      modifies this, ws
      ensures Valid() && Parts == old(Parts)
      ensures Fetched(path, start, end, limit, now, r)
    {
      if path in store || 0 < now {
        r := Pending(promises);
        PromisesAfterFetch(fetchCalls, delivered, promises, now, path);
        fetchCalls := fetchCalls[now := PendingCall(path, promises)];
        promises := promises + 1;
        if ws != null {
          ws.Send("fetch", FetchArgs(now, path, start, end, limit));
        }
        return;
      }
      // no partition for the path: `[...(s?.store.values() || [])]` is empty
      r := Resolved([]);
    }

    /** fetchFolder: the first hundred messages of a folder. */
    method FetchFolder(path: string, now: nat) returns (r: Promise)
      requires Valid()
      modifies this, ws
      ensures Valid() && Parts == old(Parts)
      ensures Fetched(path, 1, 100, 100, now, r)
    {
      r := FetchMessages(path, 1, 100, 100, now);
    }

    /**
     * Two fetches in the same millisecond share the token `now`: the second
     * request replaces the first in fetchCalls, so the first promise is
     * waited on by no request and no answer can ever resolve it.
     */
    method FetchSameToken(path1: string, path2: string, now: nat) returns (r1: Promise, r2: Promise)
      requires Valid() && 0 < now
      modifies this, ws
      ensures Valid() && Parts == old(Parts) && store == old(store)
      ensures r1 == Pending(old(promises)) && r2 == Pending(old(promises) + 1)
      ensures fetchCalls == old(fetchCalls)[now := PendingCall(path2, r2.id)]
      ensures forall t :: t in fetchCalls ==> fetchCalls[t].promise != r1.id
    {
      r1 := FetchFolder(path1, now);
      r2 := FetchFolder(path2, now);
    }

    /**
     * The effect of updateMessage(sync, m) at time `now`. An unknown token
     * changes nothing. A known one is removed; the partition of its path is
     * created if there is none (an existing one is kept, expiry included);
     * the messages are saved into it; and the request's promise is resolved
     * with every message of the partition. No other request and no other
     * partition changes.
     */
    twostate predicate Updated(sync: int, m: seq<MailMessage>, now: nat)
      requires old(Valid()) && Valid()
      reads this, Parts
    {
      && ws == old(ws) && promises == old(promises)
      && (sync !in old(fetchCalls) ==>
        && fetchCalls == old(fetchCalls) && store == old(store) && delivered == old(delivered)
        && forall p :: p in store ==> store[p].store == old(store[p].store))
      && (sync in old(fetchCalls) ==>
        var call := old(fetchCalls[sync]);
        && call.path in store
        && var s := store[call.path];
        && fetchCalls == old(fetchCalls) - {sync}
        && store == old(store)[call.path := s]
        && (call.path in old(store) ==> s == old(store[call.path]))
        && (call.path !in old(store) ==> s.expires == now + TwoMinutes)
        && (forall p :: p in old(store) && p != call.path ==> store[p].store == old(store[p].store))
        && s.store == SaveAll(if call.path in old(store) then old(s.store) else EmptyMap(), m)
        && delivered == old(delivered) + [Delivery(call.promise, s.store.Values())])
    }

    method UpdateMessage(sync: int, m: seq<MailMessage>, now: nat)
      requires Valid()
      modifies this, Parts
      ensures Valid() && fresh(Parts - old(Parts))
      ensures Updated(sync, m, now)
    {
      if sync !in fetchCalls {
        return;
      }
      Answer(sync, m, now);
    }

    /** updateMessage for a token that has a pending request. */
    method Answer(sync: int, m: seq<MailMessage>, now: nat)
      requires Valid() && sync in fetchCalls
      modifies this, Parts
      ensures Valid() && fresh(Parts - old(Parts))
      ensures Updated(sync, m, now)
    {
      var call := fetchCalls[sync];
      var s := Store(call.path, m, now);
      Settle(sync, s.store.Values());
    }

    /** Drop the answered request and resolve its promise with `v`. */
    method Settle(sync: int, v: seq<MailMessage>)
      requires Promised() && sync in fetchCalls
      modifies this`fetchCalls, this`delivered
      ensures Promised()
      ensures fetchCalls == old(fetchCalls) - {sync}
      ensures delivered == old(delivered) + [Delivery(old(fetchCalls[sync].promise), v)]
    {
      PromisesAfterAnswer(fetchCalls, delivered, promises, sync, v);
      var p := fetchCalls[sync].promise;
      fetchCalls := fetchCalls - {sync};
      delivered := delivered + [Delivery(p, v)];
    }

    /** Save the messages into the partition of `path`, creating it first if there is none. */
    method Store(path: string, m: seq<MailMessage>, now: nat) returns (s: FolderMessageManager)
      requires Stored()
      modifies this`store, this`Parts, Parts
      ensures Stored() && fresh(Parts - old(Parts))
      ensures store == old(store)[path := s]
      ensures path in old(store) ==> s == old(store[path])
      ensures path !in old(store) ==> s.expires == now + TwoMinutes
      ensures forall p :: p in old(store) && p != path ==> store[p].store == old(store[p].store)
      ensures s.store == SaveAll(if path in old(store) then old(s.store) else EmptyMap(), m)
    {
      s := PartitionFor(path, now);
      SaveInto(s, m);
    }

    /** The partition of `path`, created empty (expiring two minutes from `now`) and registered if there is none. */
    method PartitionFor(path: string, now: nat) returns (s: FolderMessageManager)
      requires Stored()
      modifies this`store, this`Parts
      ensures Stored() && path in store && s == store[path]
      ensures path in old(store) ==> store == old(store) && Parts == old(Parts)
      ensures path !in old(store) ==>
        && fresh(s) && store == old(store)[path := s] && Parts == old(Parts) + {s}
        && s.expires == now + TwoMinutes && s.store == EmptyMap()
    {
      if path in store {
        s := store[path];
      } else {
        s := new FolderMessageManager(now);
        store := store[path := s];
        Parts := Parts + {s};
      }
    }

    /** Save the messages into one of the partitions; the others keep their messages. */
    method SaveInto(s: FolderMessageManager, m: seq<MailMessage>)
      requires Stored() && exists p :: p in store && store[p] == s
      modifies s`store
      ensures Stored() && s.store == SaveAll(old(s.store), m)
      ensures forall p :: p in store && store[p] != s ==> store[p].store == old(store[p].store)
    {
      s.SaveIncomingMessages(m);
    }
  }

  /**
   * Promise ids below `next` have been handed out; a promise waits on at most
   * one request, and once resolved it is neither resolved again nor waited on.
   */
  ghost predicate PromisesOk(calls: map<int, PendingCall>, delivered: seq<Delivery>, next: nat)
  {
    && (forall t :: t in calls ==> calls[t].promise < next)
    && (forall t, u :: t in calls && u in calls && t != u ==> calls[t].promise != calls[u].promise)
    && (forall i :: 0 <= i < |delivered| ==> delivered[i].promise < next)
    && (forall i, t :: 0 <= i < |delivered| && t in calls ==> delivered[i].promise != calls[t].promise)
    && (forall i, j :: 0 <= i < j < |delivered| ==> delivered[i].promise != delivered[j].promise)
  }

  /** A fetch that goes out hands out a new id and may drop the request waiting under the same token. */
  lemma PromisesAfterFetch(calls: map<int, PendingCall>, delivered: seq<Delivery>, next: nat, now: int, path: string)
    requires PromisesOk(calls, delivered, next)
    ensures PromisesOk(calls[now := PendingCall(path, next)], delivered, next + 1)
  {
    var c := calls[now := PendingCall(path, next)];
    forall t, u | t in c && u in c && t != u
      ensures c[t].promise != c[u].promise
    {
      if t != now && u != now {
        assert c[t] == calls[t] && c[u] == calls[u];
      }
    }
  }

  /** Answering a pending request resolves its promise, which then waits on nothing. */
  lemma PromisesAfterAnswer(calls: map<int, PendingCall>, delivered: seq<Delivery>, next: nat, sync: int, v: seq<MailMessage>)
    requires PromisesOk(calls, delivered, next) && sync in calls
    ensures PromisesOk(calls - {sync}, delivered + [Delivery(calls[sync].promise, v)], next)
  {
    var c := calls - {sync};
    var d := delivered + [Delivery(calls[sync].promise, v)];
    forall i, t | 0 <= i < |d| && t in c
      ensures d[i].promise != c[t].promise
    {
      if i < |delivered| {
        assert d[i] == delivered[i];
      }
    }
    forall i, j | 0 <= i < j < |d|
      ensures d[i].promise != d[j].promise
    {
      if j < |delivered| {
        assert d[i] == delivered[i] && d[j] == delivered[j];
      } else {
        assert d[i] == delivered[i];
      }
    }
  }

  /** The messages handed to a promise: one per distinct sequence number in the partition. */
  lemma DeliveryCount(s: OrderedMap<int, MailMessage>, m: seq<MailMessage>)
    requires s.Valid()
    ensures |SaveAll(s, m).Values()| == |s.entries.Keys + SeqNums(m)|
  {
    KeyCount(SaveAll(s, m));
  }
}
