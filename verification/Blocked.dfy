/**
  Clients blocked on keys (src/blocked.c): the index from clients to keys and from
  keys to queues of clients, its counters, the ready keys and the serving pass.
*/
module Blocked {
  import opened Wrappers

  /** A key of one of the databases. */
  datatype Key = Key(db: nat, name: string)

  /** blocking_type */
  datatype BType = NotBlocked | OnList | OnZset | OnStream | OnModule | OnWait | OnWaitAof | OnPostpone | OnShutdown

  /** The part of a client that blocking looks at. */
  datatype Client = Client(isModule: bool, blocked: bool, btype: BType, keys: set<Key>, nokey: bool,
                           pending: bool, unblocked: bool)

  /** The type of a value, as far as blocking tells them apart. */
  datatype ObjType = ListValue | ZsetValue | StreamValue | ModuleValue | OtherValue

  /** A call of signalKeyAsReady or signalDeletedKeyAsReady. */
  datatype Signal = Signal(key: Key, objType: ObjType, deleted: bool)

  /** A call of blockForKeys. */
  datatype Request = Request(btype: BType, keys: seq<Key>, nokey: bool)

  /** What re-executing a command did: keys it signalled, and whether it blocked again. */
  datatype Outcome = Outcome(signals: seq<Signal>, again: Option<Request>)

  type Clients = map<int, Client>
  type Queues = map<Key, seq<int>>

  // ------------------------------------------------------------------ the index

  /** The clients waiting for k, first come first. */
  function Queue(queues: Queues, k: Key): seq<int> {
    if k in queues then queues[k] else []
  }

  function Count(nokeys: map<Key, nat>, k: Key): nat {
    if k in nokeys then nokeys[k] else 0
  }

  ghost predicate NoDup<T>(s: seq<T>) {
    forall i, j :: 0 <= i < j < |s| ==> s[i] != s[j]
  }

  /** s without its (only) x. */
  function Minus<T(==)>(s: seq<T>, x: T): seq<T> {
    if s == [] then [] else if s[0] == x then s[1..] else [s[0]] + Minus(s[1..], x)
  }

  /** How many of the clients in q want to know when the key disappears. */
  function Flagged(clients: Clients, q: seq<int>): nat {
    if q == [] then 0 else (if q[0] in clients && clients[q[0]].nokey then 1 else 0) + Flagged(clients, q[1..])
  }

  ghost predicate Waits(clients: Clients, c: int, k: Key) {
    c in clients && k in clients[c].keys
  }

  function KeySet(keys: seq<Key>): (r: set<Key>)
    ensures forall k :: k in r <==> k in keys
  {
    set k | k in keys
  }

  lemma KeySetSnoc(keys: seq<Key>, i: nat)
    requires i < |keys|
    ensures KeySet(keys[..i + 1]) == KeySet(keys[..i]) + {keys[i]}
  {
    assert keys[..i + 1] == keys[..i] + [keys[i]];
  }

  /** Both sides of the index agree, and an empty queue is not kept. */
  ghost predicate IndexOk(clients: Clients, queues: Queues) {
    && (forall k :: k in queues ==> queues[k] != [])
    && (forall k {:trigger Queue(queues, k)} :: NoDup(Queue(queues, k)))
    && (forall c, k {:trigger Waits(clients, c, k)} {:trigger c in Queue(queues, k)} ::
          c in Queue(queues, k) <==> Waits(clients, c, k))
  }

  /** Each count is exact, and a zero count is not kept. */
  ghost predicate NokeyOk(clients: Clients, queues: Queues, nokeys: map<Key, nat>) {
    && (forall k :: k in nokeys ==> nokeys[k] > 0)
    && (forall k {:trigger Count(nokeys, k)} {:trigger Queue(queues, k)} :: Count(nokeys, k) == Flagged(clients, Queue(queues, k)))
  }

  ghost predicate Indexed(clients: Clients, queues: Queues, nokeys: map<Key, nat>) {
    IndexOk(clients, queues) && NokeyOk(clients, queues, nokeys)
  }

  /** The clients that server.blocked_clients counts. */
  function Regular(clients: Clients): set<int> {
    set c | c in clients && clients[c].blocked && !clients[c].isModule
  }

  function OfType(clients: Clients, t: BType): set<int> {
    set c | c in clients && clients[c].blocked && clients[c].btype == t
  }

  /** A slot of server.blocked_clients_by_type, all zero to begin with. */
  function ByType(byType: map<BType, int>, t: BType): int {
    if t in byType then byType[t] else 0
  }

  ghost predicate CountsOk(clients: Clients, total: int, byType: map<BType, int>) {
    && total == |Regular(clients)|
    && forall t {:trigger OfType(clients, t)} {:trigger ByType(byType, t)} :: ByType(byType, t) == |OfType(clients, t)|
  }

  predicate CanHaveKeys(t: BType) {
    t == OnList || t == OnZset || t == OnStream || t == OnModule
  }

  ghost predicate ClientOk(c: Client) {
    && (c.blocked <==> c.btype != NotBlocked)
    && (c.keys != {} ==> CanHaveKeys(c.btype))
    && (c.nokey ==> CanHaveKeys(c.btype))
    && (c.btype == OnList || c.btype == OnZset || c.btype == OnStream ==> c.pending)
  }

  ghost predicate ClientsOk(clients: Clients) {
    forall c :: c in clients ==> ClientOk(clients[c])
  }

  /** A client is on the list of unblocked clients once if it is flagged, else not at all. */
  ghost predicate UnblockedOk(clients: Clients, unblocked: seq<int>) {
    NoDup(unblocked) && forall c {:trigger c in unblocked} :: c in unblocked <==> c in clients && clients[c].unblocked
  }

  // ------------------------------------------------------------ sequences of ids

  lemma {:induction false} MinusIn<T>(s: seq<T>, x: T)
    requires NoDup(s)
    ensures NoDup(Minus(s, x)) && forall y :: y in Minus(s, x) <==> y in s && y != x
    ensures x in s ==> |Minus(s, x)| == |s| - 1
    ensures x !in s ==> Minus(s, x) == s
  {
    if s != [] {
      var rest := s[1..];
      assert NoDup(rest);
      assert s == [s[0]] + rest;
      assert s[0] !in rest;
      MinusIn(rest, x);
    }
  }

  lemma {:induction false} FlaggedSplits(clients: Clients, p: seq<int>, q: seq<int>)
    ensures Flagged(clients, p + q) == Flagged(clients, p) + Flagged(clients, q)
  {
    if p == [] {
      assert p + q == q;
    } else {
      assert (p + q)[1..] == p[1..] + q;
      FlaggedSplits(clients, p[1..], q);
    }
  }

  lemma {:induction false} FlaggedMinus(clients: Clients, q: seq<int>, c: int)
    requires NoDup(q) && c in q
    ensures Flagged(clients, q) == Flagged(clients, Minus(q, c)) + if c in clients && clients[c].nokey then 1 else 0
  {
    if q[0] != c {
      assert c in q[1..];
      FlaggedMinus(clients, q[1..], c);
      assert Minus(q, c)[1..] == Minus(q[1..], c);
    }
  }

  /** Only the flags of the clients in the queue matter. */
  lemma {:induction false} FlaggedSame(a: Clients, b: Clients, q: seq<int>)
    requires forall i :: 0 <= i < |q| ==> q[i] in a && q[i] in b && a[q[i]].nokey == b[q[i]].nokey
    ensures Flagged(a, q) == Flagged(b, q)
  {
    if q != [] {
      FlaggedSame(a, b, q[1..]);
    }
  }

  // -------------------------------------------------------- one change at a time

  /** A write to the fields of one client. */
  function Put(clients: Clients, c: int, x: Client): (r: Clients)
    ensures c in r && r[c] == x
  {
    clients[c := x]
  }

  lemma PutTwice(clients: Clients, c: int, x: Client, y: Client)
    ensures Put(Put(clients, c, x), c, y) == Put(clients, c, y)
  {}

  lemma PutSame(clients: Clients, c: int)
    requires c in clients
    ensures Put(clients, c, clients[c]) == clients
  {}

  /** c without k in its dict. */
  function WithoutKey(clients: Clients, c: int, k: Key): Clients
    requires c in clients
  {
    Put(clients, c, clients[c].(keys := clients[c].keys - {k}))
  }

  function WithKey(clients: Clients, c: int, k: Key): Clients
    requires c in clients
  {
    Put(clients, c, clients[c].(keys := clients[c].keys + {k}))
  }

  function WithKeys(clients: Clients, c: int, ks: set<Key>): Clients
    requires c in clients
  {
    Put(clients, c, clients[c].(keys := ks))
  }

  function WithFlag(clients: Clients, c: int, nokey: bool): Clients
    requires c in clients
  {
    Put(clients, c, clients[c].(nokey := nokey))
  }

  lemma WithKeysGrow(clients: Clients, c: int, ks: set<Key>, k: Key, nokey: bool)
    requires c in clients
    ensures WithKey(WithKeys(clients, c, ks), c, k) == WithKeys(clients, c, ks + {k})
    ensures WithKey(WithFlag(WithKeys(clients, c, ks), c, nokey), c, k) == WithFlag(WithKeys(clients, c, ks + {k}), c, nokey)
  {
    hide Put;
    var x := clients[c];
    PutTwice(clients, c, x.(keys := ks), x.(keys := ks + {k}));
    PutTwice(clients, c, x.(keys := ks), x.(keys := ks, nokey := nokey));
    PutTwice(clients, c, x.(keys := ks, nokey := nokey), x.(keys := ks + {k}, nokey := nokey));
    PutTwice(clients, c, x.(keys := ks + {k}), x.(keys := ks + {k}, nokey := nokey));
  }

  /** c joined the end of the queues of ks, and nothing else changed. */
  ghost predicate Joined(before: Queues, after: Queues, ks: set<Key>, c: int) {
    forall j {:trigger Queue(after, j)} :: Queue(after, j) == Queue(before, j) + if j in ks then [c] else []
  }

  lemma JoinedStep(before: Queues, mid: Queues, after: Queues, ks: set<Key>, k: Key, c: int)
    requires k !in ks && Joined(before, mid, ks, c) && Joined(mid, after, {k}, c)
    ensures Joined(before, after, ks + {k}, c)
  {
    forall j
      ensures Queue(after, j) == Queue(before, j) + if j in ks + {k} then [c] else []
    {
      assert Queue(mid, j) == Queue(before, j) + if j in ks then [c] else [];
    }
  }

  /** c left the queues of ks, and the others kept their places. */
  ghost predicate Left(before: Queues, after: Queues, ks: set<Key>, c: int) {
    forall j {:trigger Queue(after, j)} :: Queue(after, j) == if j in ks then Minus(Queue(before, j), c) else Queue(before, j)
  }

  lemma LeftNone(queues: Queues, c: int)
    ensures Left(queues, queues, {}, c)
  {}

  lemma LeftStep(before: Queues, mid: Queues, after: Queues, ks: set<Key>, k: Key, c: int)
    requires k !in ks && Left(before, mid, ks, c) && Left(mid, after, {k}, c)
    ensures Left(before, after, ks + {k}, c)
  {
    forall j
      ensures Queue(after, j) == if j in ks + {k} then Minus(Queue(before, j), c) else Queue(before, j)
    {
      assert Queue(mid, j) == if j in ks then Minus(Queue(before, j), c) else Queue(before, j);
    }
  }

  /** The queues after c left the one of k. */
  function Unlinked(queues: Queues, c: int, k: Key): Queues
    requires k in queues
  {
    var q := Minus(queues[k], c);
    if q == [] then queues - {k} else queues[k := q]
  }

  lemma UnlinkedOk(clients: Clients, queues: Queues, c: int, k: Key)
    requires IndexOk(clients, queues) && c in clients && k in clients[c].keys && k in queues
    ensures IndexOk(WithoutKey(clients, c, k), Unlinked(queues, c, k))
  {
    var after, unlinked := WithoutKey(clients, c, k), Unlinked(queues, c, k);
    assert Queue(queues, k) == queues[k];
    MinusIn(queues[k], c);
    forall j
      ensures Queue(unlinked, j) == if j == k then Minus(queues[k], c) else Queue(queues, j)
    {}
    forall d, j
      ensures d in Queue(unlinked, j) <==> Waits(after, d, j)
    {
      assert d in Queue(queues, j) <==> Waits(clients, d, j);
    }
  }

  lemma LinkedOk(clients: Clients, queues: Queues, c: int, k: Key)
    requires IndexOk(clients, queues) && c in clients && k !in clients[c].keys
    ensures IndexOk(WithKey(clients, c, k), queues[k := Queue(queues, k) + [c]])
  {
    var after, linked := WithKey(clients, c, k), queues[k := Queue(queues, k) + [c]];
    assert c in Queue(queues, k) <==> Waits(clients, c, k);
    forall j
      ensures NoDup(Queue(linked, j))
    {
      assert NoDup(Queue(queues, j));
    }
    forall d, j
      ensures d in Queue(linked, j) <==> Waits(after, d, j)
    {
      assert d in Queue(queues, j) <==> Waits(clients, d, j);
    }
  }

  /** One more client in the queue: one more on the count if it is flagged. */
  lemma LinkedNokey(clients: Clients, queues: Queues, nokeys: map<Key, nat>, c: int, k: Key)
    requires IndexOk(clients, queues) && NokeyOk(clients, queues, nokeys) && c in clients && k !in clients[c].keys
    ensures NokeyOk(WithKey(clients, c, k), queues[k := Queue(queues, k) + [c]],
                    if clients[c].nokey then nokeys[k := Count(nokeys, k) + 1] else nokeys)
  {
    var after, linked := WithKey(clients, c, k), queues[k := Queue(queues, k) + [c]];
    var nokeys' := if clients[c].nokey then nokeys[k := Count(nokeys, k) + 1] else nokeys;
    forall j
      ensures Count(nokeys', j) == Flagged(after, Queue(linked, j))
    {
      assert Count(nokeys, j) == Flagged(clients, Queue(queues, j));
      SameFlags(clients, after, queues, j);
      if j == k {
        FlaggedSplits(after, Queue(queues, k), [c]);
      }
    }
  }

  /** Members of a queue are clients, so a change that keeps the flags keeps the count. */
  lemma SameFlags(a: Clients, b: Clients, queues: Queues, k: Key)
    requires IndexOk(a, queues) && forall c :: c in a ==> c in b && a[c].nokey == b[c].nokey
    ensures Flagged(a, Queue(queues, k)) == Flagged(b, Queue(queues, k))
  {
    var q := Queue(queues, k);
    forall i | 0 <= i < |q|
      ensures q[i] in a && q[i] in b && a[q[i]].nokey == b[q[i]].nokey
    {
      assert q[i] in Queue(queues, k) && Waits(a, q[i], k);
    }
    FlaggedSame(a, b, Queue(queues, k));
  }

  /** The counts after a flagged client, or any last client, left the queue of k. */
  function Uncounted(nokeys: map<Key, nat>, k: Key, last: bool, flagged: bool): map<Key, nat> {
    if last then nokeys - {k}
    else if !flagged then nokeys
    else if Count(nokeys, k) <= 1 then nokeys - {k}
    else nokeys[k := nokeys[k] - 1]
  }

  lemma UnlinkedNokey(clients: Clients, queues: Queues, nokeys: map<Key, nat>, c: int, k: Key)
    requires IndexOk(clients, queues) && NokeyOk(clients, queues, nokeys) && c in clients && k in clients[c].keys && k in queues
    ensures NokeyOk(WithoutKey(clients, c, k), Unlinked(queues, c, k),
                    Uncounted(nokeys, k, Minus(queues[k], c) == [], clients[c].nokey))
    ensures clients[c].nokey ==> Count(nokeys, k) > 0
  {
    var after, unlinked := WithoutKey(clients, c, k), Unlinked(queues, c, k);
    var nokeys' := Uncounted(nokeys, k, Minus(queues[k], c) == [], clients[c].nokey);
    assert Queue(queues, k) == queues[k];
    assert Waits(clients, c, k);
    assert Count(nokeys, k) == Flagged(clients, queues[k]);
    FlaggedMinus(clients, queues[k], c);
    UnlinkedOk(clients, queues, c, k);
    forall j
      ensures Count(nokeys', j) == Flagged(after, Queue(unlinked, j))
    {
      assert Count(nokeys, j) == Flagged(clients, Queue(queues, j));
      SameFlags(after, clients, unlinked, j);
    }
  }

  // ------------------------------------------------------------------- counters

  /** Blocking or unblocking c moves the counters by one. */
  lemma CountsMove(clients: Clients, c: int, now: Client)
    requires c in clients && now.isModule == clients[c].isModule
    ensures var after := Put(clients, c, now);
            && |Regular(after)| == |Regular(clients)| + One(now.blocked && !now.isModule) - One(clients[c].blocked && !now.isModule)
            && forall t {:trigger OfType(after, t)} ::
                 |OfType(after, t)| == |OfType(clients, t)| + One(now.blocked && now.btype == t)
                                       - One(clients[c].blocked && clients[c].btype == t)
  {
    var after := Put(clients, c, now);
    MoveOne(Regular(clients), Regular(after), c);
    forall t
      ensures |OfType(after, t)| == |OfType(clients, t)| + One(c in OfType(after, t)) - One(c in OfType(clients, t))
    {
      MoveOne(OfType(clients, t), OfType(after, t), c);
    }
  }

  function One(b: bool): int {
    if b then 1 else 0
  }

  lemma MoveOne(a: set<int>, b: set<int>, c: int)
    requires a - {c} == b - {c}
    ensures |b| == |a| + One(c in b) - One(c in a)
  {
    if c in a {
      assert a == (a - {c}) + {c};
    } else {
      assert a == a - {c};
    }
    if c in b {
      assert b == (b - {c}) + {c};
    } else {
      assert b == b - {c};
    }
  }

  // ----------------------------------------------------------------- the server

  class Server {
    var clients: Clients
    var queues: Queues                 // db->blocking_keys
    var nokeys: map<Key, nat>          // db->blocking_keys_unblock_on_nokey
    var blockedClients: int
    var blockedByType: map<BType, int>
    var ready: seq<Key>                // server.ready_keys
    var readyDict: set<Key>            // db->ready_keys
    var unblocked: seq<int>            // server.unblocked_clients

    /** Between any two calls. */
    ghost predicate Valid()
      reads this
    {
      && ClientsOk(clients)
      && Indexed(clients, queues, nokeys)
      && CountsOk(clients, blockedClients, blockedByType)
      && UnblockedOk(clients, unblocked)
    }

    function View(): Scene
      reads this
    {
      Scene(clients, queues, ready, unblocked)
    }

    constructor ()
      ensures Valid() && ReadyOk([]) && clients == map[]
    {
      clients, queues, nokeys := map[], map[], map[];
      blockedClients, blockedByType := 0, map[];
      ready, readyDict, unblocked := [], {}, [];
    }

    /** initClientBlockingState */
    method AddClient(c: int, isModule: bool)
      requires Valid() && c !in clients
      modifies `clients
      ensures Valid() && clients == Put(old(clients), c, Client(isModule, false, NotBlocked, {}, false, false, false))
    {
      hide Indexed, CountsOk;
      NewClient(clients, queues, nokeys, blockedClients, blockedByType, c, Client(isModule, false, NotBlocked, {}, false, false, false));
      clients := Put(clients, c, Client(isModule, false, NotBlocked, {}, false, false, false));
    }

    /** releaseBlockedEntry. `view` is the dict as it will be: the caller may empty it at the end. */
    method ReleaseBlockedEntry(c: int, k: Key, ghost view: Clients)
      requires Indexed(view, queues, nokeys)
      requires c in clients && c in view && k in view[c].keys && view[c].nokey == clients[c].nokey
      modifies `queues, `nokeys
      ensures Indexed(WithoutKey(view, c, k), queues, nokeys)
      ensures Left(old(queues), queues, {k}, c)
    {
      assert Waits(view, c, k);
      UnlinkedOk(view, queues, c, k);
      UnlinkedNokey(view, queues, nokeys, c, k);
      var left := Minus(queues[k], c);
      if |left| == 0 {
        queues := queues - {k};
        nokeys := nokeys - {k};
      } else {
        queues := queues[k := left];
        if clients[c].nokey {
          if nokeys[k] - 1 == 0 {
            nokeys := nokeys - {k};
          } else {
            nokeys := nokeys[k := nokeys[k] - 1];
          }
        }
      }
    }

    /** The client joins the end of the queue of k. */
    method LinkKey(c: int, k: Key, nokey: bool, ghost view: Clients)
      requires Indexed(view, queues, nokeys)
      requires c in clients && c in view && view[c].nokey == nokey && k !in view[c].keys
      modifies `clients, `queues, `nokeys
      ensures clients == WithKey(old(clients), c, k)
      ensures Indexed(WithKey(view, c, k), queues, nokeys)
      ensures Joined(old(queues), queues, {k}, c)
    {
      hide IndexOk, NokeyOk;
      LinkedOk(view, queues, c, k);
      LinkedNokey(view, queues, nokeys, c, k);
      clients := Put(clients, c, clients[c].(keys := clients[c].keys + {k}));
      queues := queues[k := (if k in queues then queues[k] else []) + [c]];
      if nokey {
        nokeys := nokeys[k := if k in nokeys then nokeys[k] + 1 else 1];
      }
    }

    /** One turn of the loop of blockForKeys; ks are the keys before. */
    method LinkNext(c: int, k: Key, nokey: bool, ghost start: Clients, ghost first: Queues, ghost ks: set<Key>)
      requires c in start && clients == WithKeys(start, c, ks)
      requires Indexed(WithFlag(clients, c, nokey), queues, nokeys) && Joined(first, queues, ks, c)
      modifies `clients, `queues, `nokeys
      ensures clients == WithKeys(start, c, ks + {k})
      ensures Indexed(WithFlag(clients, c, nokey), queues, nokeys) && Joined(first, queues, ks + {k}, c)
    {
      hide Indexed, Put, Joined;
      if k in clients[c].keys {
        assert ks + {k} == ks;
        return;
      }
      ghost var mid := queues;
      WithKeysGrow(start, c, ks, k, nokey);
      LinkKey(c, k, nokey, WithFlag(clients, c, nokey));
      JoinedStep(first, mid, queues, ks, k, c);
    }

    /** The loop of blockForKeys: the keys that c did not wait for yet, each once, in order. */
    method LinkKeys(c: int, keys: seq<Key>, nokey: bool)
      requires Indexed(clients, queues, nokeys) && c in clients && clients[c].keys == {}
      modifies `clients, `queues, `nokeys
      ensures clients == WithKeys(old(clients), c, KeySet(keys))
      ensures Indexed(WithFlag(clients, c, nokey), queues, nokeys)
      ensures Joined(old(queues), queues, KeySet(keys), c)
    {
      hide Indexed;
      FlagBeforeKeys(clients, queues, nokeys, c, nokey);
      assert KeySet(keys[..0]) == {};
      PutSame(clients, c);
      hide Put, Joined;
      for i := 0 to |keys|
        invariant clients == WithKeys(old(clients), c, KeySet(keys[..i]))
        invariant Indexed(WithFlag(clients, c, nokey), queues, nokeys)
        invariant Joined(old(queues), queues, KeySet(keys[..i]), c)
      {
        KeySetSnoc(keys, i);
        LinkNext(c, keys[i], nokey, old(clients), old(queues), KeySet(keys[..i]));
      }
      assert keys[..|keys|] == keys;
    }

    /** blockClient */
    method BlockClient(c: int, btype: BType)
      requires c in clients && CountsOk(clients, blockedClients, blockedByType)
      requires !clients[c].blocked && clients[c].btype == NotBlocked && btype != NotBlocked
      modifies `clients, `blockedClients, `blockedByType
      ensures clients == Put(old(clients), c, old(clients[c]).(blocked := true, btype := btype))
      ensures CountsOk(clients, blockedClients, blockedByType)
    {
      clients := Put(clients, c, clients[c].(blocked := true, btype := btype));
      if !clients[c].isModule {
        blockedClients := blockedClients + 1;
      }
      blockedByType := blockedByType[btype := ByType(blockedByType, btype) + 1];
      CountsAfter(old(clients), c, clients[c], old(blockedClients), old(blockedByType), blockedClients, blockedByType);
    }

    /** blockForKeys up to blockClient: c is in the queues, with its flags set. */
    method JoinQueues(c: int, keys: seq<Key>, nokey: bool, pending: bool)
      requires Indexed(clients, queues, nokeys) && c in clients && clients[c].keys == {}
      modifies `clients, `queues, `nokeys
      ensures Indexed(clients, queues, nokeys) && Joined(old(queues), queues, KeySet(keys), c)
      ensures clients == Put(old(clients), c, old(clients[c]).(keys := KeySet(keys), nokey := nokey,
                                                              pending := old(clients[c].pending) || pending))
    {
      ghost var was, x := clients, clients[c];
      LinkKeys(c, keys, nokey);
      hide Put, Indexed, Joined, KeySet;
      ghost var y := x.(keys := KeySet(keys), nokey := nokey);
      PutTwice(was, c, x.(keys := KeySet(keys)), y);
      clients := Put(clients, c, clients[c].(nokey := nokey));
      if pending {
        IndexedPut(clients, queues, nokeys, c, y.(pending := true));
        PutTwice(was, c, y, y.(pending := true));
        clients := Put(clients, c, clients[c].(pending := true));
      }
    }

    /** blockForKeys: the client waits at the end of every queue. */
    method BlockForKeys(c: int, btype: BType, keys: seq<Key>, nokey: bool)
      requires Valid() && c in clients && !clients[c].blocked && CanHaveKeys(btype)
      modifies this
      ensures Valid()
      ensures clients == Put(old(clients), c, old(clients[c]).(blocked := true, btype := btype, keys := KeySet(keys), nokey := nokey,
                                                              pending := old(clients[c].pending) || btype != OnModule))
      ensures Joined(old(queues), queues, KeySet(keys), c)
      ensures ready == old(ready) && readyDict == old(readyDict) && unblocked == old(unblocked)
    {
      ghost var was, x := clients, clients[c];
      assert ClientOk(x);
      hide Put, Indexed, CountsOk, Joined, KeySet, ClientsOk, UnblockedOk;
      JoinQueues(c, keys, nokey, btype != OnModule);
      ghost var y := clients[c];
      ghost var z := y.(blocked := true, btype := btype);
      CountsPut(was, c, y, blockedClients, blockedByType);
      IndexedPut(clients, queues, nokeys, c, z);
      PutTwice(was, c, y, z);
      BlockClient(c, btype);
      ClientsPut(was, c, z, unblocked);
    }

    /** blockForReplication, blockForAofFsync, blockPostponeClient and blockClientShutdown: no keys. */
    method BlockForOther(c: int, btype: BType)
      requires Valid() && c in clients && !clients[c].blocked && btype != NotBlocked && !CanHaveKeys(btype)
      modifies this
      ensures Valid()
      ensures clients == Put(old(clients), c, old(clients[c]).(blocked := true, btype := btype,
                                                              pending := old(clients[c].pending) || btype == OnPostpone))
      ensures queues == old(queues) && ready == old(ready) && readyDict == old(readyDict) && unblocked == old(unblocked)
    {
      ghost var was, x := clients, clients[c];
      assert ClientOk(x);
      hide Put, Indexed, CountsOk, ClientsOk, UnblockedOk;
      BlockClient(c, btype);
      ghost var y := x.(blocked := true, btype := btype);
      IndexedPut(was, queues, nokeys, c, y);
      if btype == OnPostpone {
        IndexedPut(clients, queues, nokeys, c, y.(pending := true));
        CountsPut(clients, c, y.(pending := true), blockedClients, blockedByType);
        PutTwice(was, c, y, y.(pending := true));
        clients := Put(clients, c, clients[c].(pending := true));
      }
      ClientsPut(was, c, clients[c], unblocked);
    }

    /** unblockClientWaitingData */
    method UnblockWaitingData(c: int)
      requires c in clients && Indexed(clients, queues, nokeys)
      modifies `clients, `queues, `nokeys
      ensures clients == WithKeys(old(clients), c, {})
      ensures Indexed(clients, queues, nokeys) && Left(old(queues), queues, old(clients[c].keys), c)
    {
      hide Put, Indexed, Left;
      var all := clients[c].keys;
      var rest := all;
      PutSame(clients, c);
      LeftNone(queues, c);
      assert all - rest == {};
      while rest != {}
        invariant rest <= all && clients == old(clients)
        invariant Indexed(WithKeys(clients, c, rest), queues, nokeys) && Left(old(queues), queues, all - rest, c)
        decreases |rest|
      {
        var k :| k in rest;
        ghost var mid := queues;
        ReleaseBlockedEntry(c, k, WithKeys(clients, c, rest));
        WithKeysShrink(clients, c, rest, k);
        LeftStep(old(queues), mid, queues, all - rest, k, c);
        assert all - rest + {k} == all - (rest - {k});
        rest := rest - {k};
      }
      assert all - rest == all;
      clients := Put(clients, c, clients[c].(keys := {}));
    }

    /** queueClientForReprocessing */
    method QueueForReprocessing(c: int)
      requires Valid() && c in clients
      modifies `clients, `unblocked
      ensures Valid()
      ensures clients == Put(old(clients), c, old(clients[c]).(unblocked := true))
      ensures unblocked == old(unblocked) + if old(clients[c].unblocked) then [] else [c]
    {
      if clients[c].unblocked {
        PutSame(clients, c);
        return;
      }
      hide Indexed, CountsOk;
      var x := clients[c].(unblocked := true);
      IndexedPut(clients, queues, nokeys, c, x);
      CountsPut(clients, c, x, blockedClients, blockedByType);
      assert c !in unblocked;
      clients := Put(clients, c, x);
      unblocked := unblocked + [c];
    }

    /** The end of unblockClient: the counters and the flags. */
    method ClearBlocked(c: int)
      requires Valid() && c in clients && clients[c].blocked && clients[c].keys == {}
      modifies `clients, `blockedClients, `blockedByType
      ensures Valid()
      ensures clients == Put(old(clients), c, old(clients[c]).(blocked := false, btype := NotBlocked, nokey := false))
    {
      hide Indexed, CountsOk, ClientsOk, UnblockedOk;
      ghost var was, x := clients, clients[c];
      if !clients[c].isModule {
        blockedClients := blockedClients - 1;
      }
      blockedByType := blockedByType[clients[c].btype := ByType(blockedByType, clients[c].btype) - 1];
      ghost var y := x.(blocked := false, btype := NotBlocked);
      clients := Put(clients, c, clients[c].(blocked := false, btype := NotBlocked));
      CountsAfter(was, c, y, old(blockedClients), old(blockedByType), blockedClients, blockedByType);
      CountsPut(clients, c, y.(nokey := false), blockedClients, blockedByType);
      IndexedPut(was, queues, nokeys, c, y);
      FlagBeforeKeys(clients, queues, nokeys, c, false);
      PutTwice(was, c, y, y.(nokey := false));
      clients := Put(clients, c, clients[c].(nokey := false));
      ClientsPut(was, c, clients[c], unblocked);
    }

    /** unblockClient: the client leaves every queue it was in. */
    method UnblockClient(c: int, queueForReprocessing: bool)
      requires Valid() && c in clients && clients[c].blocked
      modifies this
      ensures Valid()
      ensures clients == Put(old(clients), c, old(clients[c]).(blocked := false, btype := NotBlocked, keys := {}, nokey := false,
                                                              unblocked := old(clients[c].unblocked) || queueForReprocessing))
      ensures Left(old(queues), queues, old(clients[c].keys), c)
      ensures unblocked == old(unblocked) + if queueForReprocessing && !old(clients[c].unblocked) then [c] else []
      ensures ready == old(ready) && readyDict == old(readyDict)
    {
      ghost var was, x := clients, clients[c];
      ghost var y := x.(keys := {});
      if CanHaveKeys(clients[c].btype) {
        UnblockWaitingData(c);
      } else {
        PutSame(clients, c);
        LeftNone(queues, c);
      }
      assert clients == Put(was, c, y) && Left(old(queues), queues, x.keys, c);
      CountsPut(was, c, y, blockedClients, blockedByType);
      ClientsPut(was, c, y, unblocked);
      hide Put, Indexed, CountsOk, ClientsOk, UnblockedOk, Left;
      ClearBlocked(c);
      ghost var z := y.(blocked := false, btype := NotBlocked, nokey := false);
      PutTwice(was, c, y, z);
      if queueForReprocessing {
        QueueForReprocessing(c);
        PutTwice(was, c, z, z.(unblocked := true));
      }
    }

    /** No key is pending twice: not in the list being handled and not in the fresh one. */
    ghost predicate ReadyOk(handling: seq<Key>)
      reads this
    {
      NoDup(handling + ready) && forall k {:trigger k in readyDict} :: k in readyDict <==> k in handling + ready
    }

    /** Is the signal worth queueing? The quick returns of signalKeyAsReadyLogic. */
    method AnyoneToWake(s: Signal) returns (someone: bool)
      requires Valid()
      ensures someone <==> Heeded(clients, s)
    {
      var btype := BlockedTypeByType(s.objType);
      if btype == NotBlocked {
        return false;
      }
      SomeoneOfType(clients, btype);
      if ByType(blockedByType, btype) == 0 && ByType(blockedByType, OnModule) == 0 {
        return false;
      }
      someone := if s.deleted then s.key in nokeys else s.key in queues;
      SomeoneWaits(clients, queues, nokeys, s.key, s.deleted);
    }

    /** signalKeyAsReadyLogic: a key that someone may be woken for is pending afterwards, and only once. */
    method SignalKeyAsReady(s: Signal, ghost handling: seq<Key>)
      requires Valid() && ReadyOk(handling)
      modifies `ready, `readyDict
      ensures ReadyOk(handling)
      ensures ready == old(ready) + if Heeded(clients, s) && s.key !in handling + old(ready) then [s.key] else []
    {
      var someone := AnyoneToWake(s);
      hide Valid, Heeded;
      if !someone || s.key in readyDict {
        return;
      }
      PendingOnce(handling, ready, s.key);
      readyDict := readyDict + {s.key};
      ready := ready + [s.key];
      assert NoDup(handling + ready);
      assert forall k {:trigger k in readyDict} :: k in readyDict <==> k in handling + ready;
    }

    method SignalAll(signals: seq<Signal>, ghost handling: seq<Key>)
      requires Valid() && ReadyOk(handling)
      modifies `ready, `readyDict
      ensures ReadyOk(handling)
      ensures ready == Signalled(clients, signals, handling, old(ready))
    {
      hide ReadyOk, Heeded;
      for i := 0 to |signals|
        invariant ReadyOk(handling)
        invariant ready == Signalled(clients, signals[..i], handling, old(ready))
      {
        assert signals[..i + 1][..i] == signals[..i];
        SignalKeyAsReady(signals[i], handling);
      }
      assert signals[..|signals|] == signals;
    }

    /** Clears CLIENT_PENDING_COMMAND of a client that is not blocked. */
    method ClearPending(c: int)
      requires Valid() && c in clients && !clients[c].blocked
      modifies `clients
      ensures Valid() && clients == Put(old(clients), c, old(clients[c]).(pending := false))
    {
      hide Indexed, CountsOk, UnblockedOk;
      var x := clients[c].(pending := false);
      IndexedPut(clients, queues, nokeys, c, x);
      CountsPut(clients, c, x, blockedClients, blockedByType);
      ClientsPut(clients, c, x, unblocked);
      clients := Put(clients, c, x);
    }

    /** The re-execution of the command of c, which left every queue before. */
    method Reprocess(c: int, o: Outcome, ghost handling: seq<Key>)
      requires Valid() && ReadyOk(handling) && c in clients && !clients[c].blocked
      requires o.again.Some? ==> CanHaveKeys(o.again.value.btype)
      modifies this
      ensures Valid() && ReadyOk(handling)
      ensures clients == Put(old(clients), c, Rerun(old(clients[c]), o))
      ensures Joined(old(queues), queues, Rerun(old(clients[c]), o).keys, c)
      ensures ready == Signalled(Put(old(clients), c, Released(old(clients[c]))), o.signals, handling, old(ready))
      ensures unblocked == old(unblocked) + GoesOn(c, old(clients[c]), o)
    {
      ghost var was, x := clients, clients[c];
      assert ClientOk(x);
      ClearPending(c);
      SignalAll(o.signals, handling);
      hide Put, Joined, KeySet;
      match o.again {
        case Some(r) =>
          BlockForKeys(c, r.btype, r.keys, r.nokey);
          PutTwice(was, c, x.(pending := false), clients[c]);
        case None =>
          if !clients[c].isModule {
            QueueForReprocessing(c);
            PutTwice(was, c, x.(pending := false), clients[c]);
          }
      }
    }

    /**
      unblockClientOnKey: c leaves all of its queues and its command runs again,
      which may put it at the end of queues.
    */
    method UnblockClientOnKey(c: int, k: Key, o: Outcome, ghost handling: seq<Key>)
      requires Valid() && ReadyOk(handling) && Waits(clients, c, k) && clients[c].btype != OnModule
      requires o.again.Some? ==> CanHaveKeys(o.again.value.btype)
      modifies this
      ensures Valid() && ReadyOk(handling)
      ensures clients == Put(old(clients), c, Rerun(old(clients[c]), o))
      ensures Moved(old(queues), queues, old(clients[c].keys), Rerun(old(clients[c]), o).keys, c)
      ensures ready == Signalled(Put(old(clients), c, Released(old(clients[c]))), o.signals, handling, old(ready))
      ensures unblocked == old(unblocked) + GoesOn(c, old(clients[c]), o)
    {
      ghost var was, x := clients, clients[c];
      assert ClientOk(x);
      ReleaseKey(c, k);
      ghost var mid := queues;
      UnblockClient(c, false);
      hide Put, Left, Joined;
      assert x.keys == {k} + (x.keys - {k});
      LeftBoth(old(queues), mid, queues, k, x.keys - {k}, c);
      PutTwice(was, c, x.(keys := x.keys - {k}), clients[c]);
      ghost var y := clients[c];
      assert y.pending && Rerun(y, o) == Rerun(x, o) && Released(y) == Released(x);
      PutTwice(was, c, y, Released(x));
      PutTwice(was, c, y, Rerun(x, o));
      ghost var out := queues;
      hide Rerun, Released, Signalled, Indexed, CountsOk, ClientsOk, UnblockedOk, KeySet;
      Reprocess(c, o, handling);
      LeftJoined(old(queues), out, queues, x.keys, Rerun(x, o).keys, c);
    }

    /** releaseBlockedEntry with remove_key. */
    method ReleaseKey(c: int, k: Key)
      requires Valid() && Waits(clients, c, k)
      modifies this
      ensures Valid() && clients == WithoutKey(old(clients), c, k)
      ensures Left(old(queues), queues, {k}, c)
      ensures ready == old(ready) && readyDict == old(readyDict) && unblocked == old(unblocked)
    {
      ghost var was, x := clients, clients[c];
      assert ClientOk(x);
      hide CountsOk, Indexed, ClientsOk, UnblockedOk, Left;
      ReleaseBlockedEntry(c, k, clients);
      ghost var y := x.(keys := x.keys - {k});
      CountsPut(was, c, y, blockedClients, blockedByType);
      ClientsPut(was, c, y, unblocked);
      clients := Put(clients, c, clients[c].(keys := clients[c].keys - {k}));
    }

    /** listNext, just after it returned c: the node behind c. */
    method NextAfter(k: Key, c: int) returns (next: Option<int>)
      requires Valid() && c in Queue(queues, k)
      ensures IsNext(Queue(queues, k), c, next)
    {
      var q := if k in queues then queues[k] else [];
      assert NoDup(Queue(queues, k));
      var p := 0;
      while q[p] != c
        invariant 0 <= p < |q| && c !in q[..p]
        decreases |q| - p
      {
        p := p + 1;
      }
      next := if p + 1 < |q| then Some(q[p + 1]) else None;
    }

    /** One turn of the loop of handleClientsBlockedOnKey, for the receiver c. */
    method Serve(c: int, k: Key, step: Step, ghost handling: seq<Key>)
      requires Valid() && ReadyOk(handling) && Waits(clients, c, k) && GoodStep(step)
      modifies this
      ensures Valid() && ReadyOk(handling)
      ensures Turn(old(View()), View(), c, k, step, handling)
    {
      hide Put, Indexed, CountsOk, ClientsOk, UnblockedOk, ReadyOk, Moved, Signalled;
      if Served(clients[c], step.objType) && clients[c].btype != OnModule {
        UnblockClientOnKey(c, k, step.outcome, handling);
      }
    }

    /** listNext returns c and saves the node behind it; then c is served. */
    method VisitNext(c: int, k: Key, steps: nat -> Step, i: nat, ghost w: seq<int>, ghost trail: seq<Scene>, ghost handling: seq<Key>)
      returns (next: Option<int>)
      requires Valid() && ReadyOk(handling) && GoodStep(steps(i))
      requires i < |w| && c == w[i] && Begun(w, i, trail, View(), steps, k, handling)
      modifies this
      ensures Valid() && ReadyOk(handling)
      ensures Begun(w, i + 1, trail + [View()], View(), steps, k, handling)
      ensures i + 1 < |w| ==> next == Some(w[i + 1])
    {
      hide Valid, ReadyOk, Passing, Queue, IsNext, Begun, Turn;
      PassingAt(w, i, trail, View(), steps, k, handling);
      InQueue(c, w, i, trail[0].clients, steps, k);
      next := NextAfter(k, c);
      NextInPass(trail[0].clients, clients, w, i, Queue(queues, k), steps, k, next);
      Serve(c, k, steps(i), handling);
      BegunNext(w, i, trail, old(View()), View(), steps, k, handling);
    }

    /**
      handleClientsBlockedOnKey: exactly the clients that waited when the pass began
      are visited, each once, in the order they blocked, and the trail says what each
      visit did. Those not served keep their places, and those that blocked again wait
      behind them. In the queues of other keys nobody else moves.
    */
    method HandleClientsBlockedOnKey(k: Key, steps: nat -> Step, ghost handling: seq<Key>)
      returns (visited: seq<int>, ghost trail: seq<Scene>)
      requires Valid() && ReadyOk(handling) && forall i :: GoodStep(steps(i))
      modifies this
      ensures Valid() && ReadyOk(handling)
      ensures PassOk(old(View()), Pass(visited, trail), View(), steps, k, handling)
      ensures visited == Queue(old(queues), k) && NoDup(visited)
      ensures Kept(old(queues), queues, visited) && Untouched(old(clients), clients, visited)
      ensures Queue(queues, k) == AfterPass(old(clients), visited, steps, k)
    {
      hide ReadyOk, GoodStep, AfterPass, Begun, PassOk, Kept, Untouched;
      visited := [];
      trail := [View()];
      var w := Queue(queues, k);
      var li := if |w| == 0 then None else Some(w[0]);
      var count := |w|;
      BeginPass(w, View(), steps, k, handling);
      hide Valid, Queue, NoDup;
      while li.Some? && count > 0
        invariant Valid() && ReadyOk(handling)
        invariant |visited| + count == |w| && count >= 0 && visited == w[..|visited|]
        invariant count > 0 ==> li == Some(w[|visited|])
        invariant |trail| == |visited| + 1 && trail[0] == old(View()) && Begun(w, |visited|, trail, View(), steps, k, handling)
        decreases count
      {
        var c := li.value;
        li := VisitNext(c, k, steps, |visited|, w, trail, handling);
        visited, trail := visited + [c], trail + [View()];
        count := count - 1;
      }
      assert visited == w;
      ValidScene();
      EndPass(w, trail, View(), steps, k, handling);
      PassKeeps(old(View()), Pass(w, trail), View(), steps, k, handling);
    }

    /** One key of the list of ready keys that is being handled. */
    method HandleNext(l: seq<Key>, steps: (nat, nat, nat) -> Step, n: nat, i: nat, ghost all: seq<Key>, ghost passes: seq<Pass>, ghost trail: seq<Scene>)
      returns (ghost pass: Pass)
      requires Valid() && ReadyOk(l) && l != [] && (forall i, j :: GoodStep(steps(n, i, j)))
      requires Passes(all, passes, trail, steps, n) && i == |passes| < |all| && trail[i] == View() && l == all[i..]
      modifies this
      ensures Valid() && ReadyOk(l[1..])
      ensures Passes(all, passes + [pass], trail + [View()], steps, n)
    {
      hide Passes, PassOk;
      var k, rest := l[0], l[1..];
      PopReady(l, ready);
      readyDict := readyDict - {k};
      AnyStep(steps, n, i);
      assert Valid();
      hide Valid;
      var visited, scenes := HandleClientsBlockedOnKey(k, Steps(steps, n, i), rest);
      pass := Pass(visited, scenes);
      PassesNext(all, passes, trail, pass, View(), steps, n);
    }

    /**
      One turn of the outer loop of handleClientsBlockedOnKeys: the list of ready keys is
      replaced by a fresh one and then handled, each key once and in the order signalled.
      The round records the passes, one per key, with what each visit did. Apart from
      clients that an earlier key had already got to, a pass visits exactly the clients
      that waited for its key when the turn began, each once and in the order they
      blocked. A client that is not visited stays as it was.
    */
    method HandleReadyKeys(steps: (nat, nat, nat) -> Step, n: nat) returns (ghost round: Round)
      requires Valid() && ReadyOk([]) && forall i, j :: GoodStep(steps(n, i, j))
      modifies this
      ensures Valid() && ReadyOk([]) && RoundOk(old(View()), round, View(), steps, n)
      ensures Visits(old(queues), old(ready), round.passes)
      ensures Untouched(old(clients), clients, Joint(round.passes)) && Kept(old(queues), queues, Joint(round.passes))
    {
      hide ClientsOk, Indexed, CountsOk, UnblockedOk, NoDup, PassOk, Passes, Kept, Untouched, Visits, GoodStep;
      var l := ready;
      assert [] + ready == l + [];
      ready := [];
      var i := 0;
      ghost var passes, trail := [], [View()];
      NoPasses(l, View(), steps, n);
      while |l| != 0
        invariant Valid() && ReadyOk(l) && i == |passes| <= |old(ready)| && l == old(ready)[i..]
        invariant Passes(old(ready), passes, trail, steps, n) && |trail| == i + 1
        invariant trail[i] == View() && trail[0] == old(View()).(ready := [])
        decreases |l|
      {
        ghost var pass := HandleNext(l, steps, n, i, old(ready), passes, trail);
        passes, trail := passes + [pass], trail + [View()];
        l, i := l[1..], i + 1;
      }
      round := Round(old(ready), passes, trail);
      RoundVisits(old(View()), round, View(), steps, n);
    }

    /**
      handleClientsBlockedOnKeys, as many rounds as there are or limit allows: serving
      clients may go on signalling keys for ever. Each round handles the keys that the one
      before it left pending.
    */
    method HandleClientsBlockedOnKeys(steps: (nat, nat, nat) -> Step, limit: nat)
      returns (done: nat, ghost rounds: seq<Round>, ghost trail: seq<Scene>)
      requires Valid() && ReadyOk([]) && forall n, i, j :: GoodStep(steps(n, i, j))
      modifies this
      ensures Valid() && ReadyOk([]) && |rounds| == done <= limit && (done < limit ==> ready == [])
      ensures Rounds(old(View()), rounds, trail, View(), steps)
    {
      hide Valid, ReadyOk, GoodStep, Visits, Kept, Untouched, Passes, Rounds;
      done, rounds, trail := 0, [], [View()];
      NoRounds(View(), steps);
      while |ready| != 0 && done < limit
        invariant Valid() && ReadyOk([]) && |rounds| == done <= limit
        invariant Rounds(old(View()), rounds, trail, View(), steps)
        decreases limit - done
      {
        ghost var was := View();
        ghost var round := HandleReadyKeys(steps, done);
        RoundsNext(old(View()), rounds, trail, was, round, View(), steps);
        rounds, trail := rounds + [round], trail + [View()];
        done := done + 1;
      }
    }

    lemma BeginPass(w: seq<int>, s: Scene, steps: nat -> Step, k: Key, handling: seq<Key>)
      requires Valid() && s == View() && w == Queue(queues, k)
      ensures Begun(w, 0, [s], s, steps, k, handling) && NoDup(w)
    {}

    lemma ValidScene()
      requires Valid()
      ensures SceneOk(View())
    {}

    /** The next client to visit is still in the queue. */
    lemma InQueue(c: int, w: seq<int>, i: nat, start: Clients, steps: nat -> Step, k: Key)
      requires Valid() && i < |w| && c == w[i] && Passing(start, clients, w, i, Queue(queues, k), steps, k)
      ensures c in Queue(queues, k) && Waits(clients, c, k)
    {
      assert Queue(queues, k)[|Stayed(start, w[..i], steps, k)|] == c;
    }
  }

  /** A client without keys, not blocked, disturbs nothing. */
  lemma NewClient(was: Clients, queues: Queues, nokeys: map<Key, nat>, total: int, byType: map<BType, int>, c: int, x: Client)
    requires Indexed(was, queues, nokeys) && CountsOk(was, total, byType)
    requires c !in was && x.keys == {} && !x.blocked
    ensures Indexed(Put(was, c, x), queues, nokeys) && CountsOk(Put(was, c, x), total, byType)
  {
    var now := Put(was, c, x);
    assert Regular(now) == Regular(was);
    forall t
      ensures ByType(byType, t) == |OfType(now, t)|
    {
      assert OfType(now, t) == OfType(was, t);
    }
    forall d, j
      ensures d in Queue(queues, j) <==> Waits(now, d, j)
    {
      assert d in Queue(queues, j) <==> Waits(was, d, j);
    }
    forall j
      ensures Count(nokeys, j) == Flagged(now, Queue(queues, j))
    {
      SameFlags(was, now, queues, j);
    }
  }

  lemma PopReady(l: seq<Key>, ready: seq<Key>)
    requires l != [] && NoDup(l + ready)
    ensures NoDup(l[1..] + ready) && l[0] !in l[1..] + ready
    ensures forall k :: k in l + ready <==> k == l[0] || k in l[1..] + ready
  {
    var all, rest := l + ready, l[1..] + ready;
    assert all == [l[0]] + rest;
    TailOnce(l[0], rest);
  }

  lemma TailOnce(k: Key, rest: seq<Key>)
    requires NoDup([k] + rest)
    ensures NoDup(rest) && k !in rest
  {
    var all := [k] + rest;
    forall i, j | 0 <= i < j < |rest|
      ensures rest[i] != rest[j]
    {
      assert rest[i] == all[i + 1] && rest[j] == all[j + 1];
    }
    forall j | 0 <= j < |rest|
      ensures rest[j] != k
    {
      assert rest[j] == all[j + 1] && all[0] == k;
    }
  }

  lemma LeftBoth(before: Queues, mid: Queues, after: Queues, k: Key, ks: set<Key>, c: int)
    requires k !in ks && Left(before, mid, {k}, c) && Left(mid, after, ks, c)
    ensures Left(before, after, {k} + ks, c)
  {
    forall j
      ensures Queue(after, j) == if j in {k} + ks then Minus(Queue(before, j), c) else Queue(before, j)
    {
      assert Queue(mid, j) == if j in {k} then Minus(Queue(before, j), c) else Queue(before, j);
    }
  }

  lemma LeftJoined(before: Queues, mid: Queues, after: Queues, from: set<Key>, to: set<Key>, c: int)
    requires Left(before, mid, from, c) && Joined(mid, after, to, c)
    ensures Moved(before, after, from, to, c)
  {
    forall j
      ensures Queue(after, j) == (if j in from then Minus(Queue(before, j), c) else Queue(before, j)) + if j in to then [c] else []
    {
      assert Queue(mid, j) == if j in from then Minus(Queue(before, j), c) else Queue(before, j);
    }
  }

  /** c left the queues of `from` and went to the end of those of `to`. */
  ghost predicate Moved(before: Queues, after: Queues, from: set<Key>, to: set<Key>, c: int) {
    forall j {:trigger Queue(after, j)} ::
      Queue(after, j) == (if j in from then Minus(Queue(before, j), c) else Queue(before, j)) + if j in to then [c] else []
  }

  lemma WithKeysShrink(clients: Clients, c: int, ks: set<Key>, k: Key)
    requires c in clients
    ensures WithoutKey(WithKeys(clients, c, ks), c, k) == WithKeys(clients, c, ks - {k})
  {
    hide Put;
    PutTwice(clients, c, clients[c].(keys := ks), clients[c].(keys := ks - {k}));
  }

  /** The counters follow the only client that changed. */
  lemma CountsAfter(was: Clients, c: int, x: Client, total: int, byType: map<BType, int>, total': int, byType': map<BType, int>)
    requires CountsOk(was, total, byType) && c in was && x.isModule == was[c].isModule
    requires total' == total + One(x.blocked && !x.isModule) - One(was[c].blocked && !x.isModule)
    requires forall t {:trigger ByType(byType', t)} ::
               ByType(byType', t) == ByType(byType, t) + One(x.blocked && x.btype == t) - One(was[c].blocked && was[c].btype == t)
    ensures CountsOk(Put(was, c, x), total', byType')
  {
    CountsMove(was, c, x);
    forall t
      ensures ByType(byType', t) == |OfType(Put(was, c, x), t)|
    {
      assert ByType(byType, t) == |OfType(was, t)|;
    }
  }

  /** A change that neither blocks nor unblocks leaves the counters right. */
  lemma CountsPut(was: Clients, c: int, x: Client, total: int, byType: map<BType, int>)
    requires CountsOk(was, total, byType) && c in was
    requires x.isModule == was[c].isModule && x.blocked == was[c].blocked && x.btype == was[c].btype
    ensures CountsOk(Put(was, c, x), total, byType)
  {
    CountsAfter(was, c, x, total, byType, total, byType);
  }

  lemma ClientsPut(was: Clients, c: int, x: Client, unblocked: seq<int>)
    requires ClientsOk(was) && UnblockedOk(was, unblocked) && c in was && ClientOk(x) && x.unblocked == was[c].unblocked
    ensures ClientsOk(Put(was, c, x)) && UnblockedOk(Put(was, c, x), unblocked)
  {}

  /** The index only looks at keys and flags. */
  lemma IndexedPut(was: Clients, queues: Queues, nokeys: map<Key, nat>, c: int, x: Client)
    requires Indexed(was, queues, nokeys) && c in was && x.keys == was[c].keys && x.nokey == was[c].nokey
    ensures Indexed(Put(was, c, x), queues, nokeys)
  {
    var now := Put(was, c, x);
    forall d, j
      ensures d in Queue(queues, j) <==> Waits(now, d, j)
    {
      assert d in Queue(queues, j) <==> Waits(was, d, j);
    }
    forall j
      ensures Count(nokeys, j) == Flagged(now, Queue(queues, j))
    {
      SameFlags(was, now, queues, j);
    }
  }

  /** A client without keys is in no queue, so its flag does not matter yet. */
  lemma FlagBeforeKeys(clients: Clients, queues: Queues, nokeys: map<Key, nat>, c: int, nokey: bool)
    requires Indexed(clients, queues, nokeys) && c in clients && clients[c].keys == {}
    ensures Indexed(WithFlag(clients, c, nokey), queues, nokeys)
  {
    var view := WithFlag(clients, c, nokey);
    forall d, j
      ensures d in Queue(queues, j) <==> Waits(view, d, j)
    {
      assert d in Queue(queues, j) <==> Waits(clients, d, j);
    }
    forall j
      ensures Count(nokeys, j) == Flagged(view, Queue(queues, j))
    {
      var q := Queue(queues, j);
      assert !Waits(clients, c, j);
      forall i | 0 <= i < |q|
        ensures q[i] in clients && q[i] != c
      {
        assert q[i] in Queue(queues, j) && Waits(clients, q[i], j);
      }
      FlaggedSame(clients, view, Queue(queues, j));
    }
  }

  /** getBlockedTypeByType */
  function BlockedTypeByType(t: ObjType): BType {
    match t
    case ListValue => OnList
    case ZsetValue => OnZset
    case StreamValue => OnStream
    case ModuleValue => OnModule
    case OtherValue => NotBlocked
  }

  /** The clients that a signal is meant for: those waiting for its type or for a module, and only flagged ones on deletion. */
  predicate Wakes(c: Client, s: Signal) {
    && BlockedTypeByType(s.objType) != NotBlocked
    && (c.btype == BlockedTypeByType(s.objType) || c.btype == OnModule)
    && (s.deleted ==> c.nokey)
  }

  lemma SomeoneOfType(clients: Clients, t: BType)
    requires ClientsOk(clients) && t != NotBlocked
    ensures |OfType(clients, t)| == 0 && |OfType(clients, OnModule)| == 0 <==> !AnyOfType(clients, t)
  {
    var a, b := OfType(clients, t), OfType(clients, OnModule);
    if AnyOfType(clients, t) {
      var c :| c in clients && (clients[c].btype == t || clients[c].btype == OnModule);
      assert ClientOk(clients[c]);
      assert c in a || c in b;
    } else {
      forall c | c in clients
        ensures c !in a && c !in b
      {
        assert clients[c].btype != t && clients[c].btype != OnModule;
      }
      assert a == {} && b == {};
    }
  }

  lemma {:induction false} SomeFlagged(clients: Clients, q: seq<int>)
    ensures Flagged(clients, q) > 0 <==> exists c :: c in q && c in clients && clients[c].nokey
  {
    if q != [] {
      var rest := q[1..];
      SomeFlagged(clients, rest);
      assert forall c :: c in q <==> c == q[0] || c in rest;
    }
  }

  ghost predicate AnyOfType(clients: Clients, t: BType) {
    exists c :: c in clients && (clients[c].btype == t || clients[c].btype == OnModule)
  }

  ghost predicate AnyWaiting(clients: Clients, k: Key, deleted: bool) {
    exists c :: Waits(clients, c, k) && (deleted ==> clients[c].nokey)
  }

  /**
    The signals that make a key pending: some client waits for the type, or for a module, on
    any key, and some client waits for this key, on deletion one that wants to know.
  */
  ghost predicate Heeded(clients: Clients, s: Signal) {
    var t := BlockedTypeByType(s.objType);
    t != NotBlocked && AnyOfType(clients, t) && AnyWaiting(clients, s.key, s.deleted)
  }

  /** The fresh list of ready keys after some signals. */
  ghost function Signalled(clients: Clients, signals: seq<Signal>, handling: seq<Key>, ready: seq<Key>): seq<Key> {
    if signals == [] then ready
    else
      var n := |signals| - 1;
      var before, s := Signalled(clients, signals[..n], handling, ready), signals[n];
      before + if Heeded(clients, s) && s.key !in handling + before then [s.key] else []
  }

  lemma PendingOnce(handling: seq<Key>, ready: seq<Key>, k: Key)
    requires NoDup(handling + ready) && k !in handling + ready
    ensures NoDup(handling + (ready + [k])) && k in handling + (ready + [k])
    ensures forall j :: j in handling + (ready + [k]) <==> j in handling + ready || j == k
  {
    assert handling + (ready + [k]) == handling + ready + [k];
  }

  /** The two dicts tell whether anyone waits for k, and anyone who wants to know when it disappears. */
  lemma SomeoneWaits(clients: Clients, queues: Queues, nokeys: map<Key, nat>, k: Key, deleted: bool)
    requires Indexed(clients, queues, nokeys)
    ensures (if deleted then k in nokeys else k in queues) <==> AnyWaiting(clients, k, deleted)
  {
    var q := Queue(queues, k);
    assert Count(nokeys, k) == Flagged(clients, q);
    SomeFlagged(clients, q);
    forall c
      ensures c in q <==> Waits(clients, c, k)
    {}
    if k in queues {
      assert q[0] in q && Waits(clients, q[0], k);
    }
  }

  // ----------------------------------------------------------- the serving pass

  /** What the world looks like when one receiver is visited. */
  datatype Step = Step(objType: Option<ObjType>, outcome: Outcome)

  predicate GoodStep(s: Step) {
    s.outcome.again.Some? ==> CanHaveKeys(s.outcome.again.value.btype)
  }

  /** The conditions under which handleClientsBlockedOnKey serves the receiver. */
  predicate Served(c: Client, objType: Option<ObjType>) {
    || (objType.Some? && c.btype == BlockedTypeByType(objType.value))
    || (objType.Some? && c.btype == OnModule)
    || c.nokey
  }

  datatype Fate = Stays | Leaves | Requeued

  /** A module client is only handed over here: it leaves the queue later. */
  function FateOf(c: Client, s: Step, k: Key): Fate {
    if !Served(c, s.objType) || c.btype == OnModule then Stays
    else if s.outcome.again.Some? && k in s.outcome.again.value.keys then Requeued
    else Leaves
  }

  /** What the serving of clients changes. */
  datatype Scene = Scene(clients: Clients, queues: Queues, ready: seq<Key>, unblocked: seq<int>)

  /** A client that has left its queues and whose command is about to run again. */
  function Released(x: Client): Client {
    x.(blocked := false, btype := NotBlocked, keys := {}, nokey := false, pending := false)
  }

  /** A client whose command has run again. */
  function Rerun(x: Client, o: Outcome): Client {
    match o.again
    case Some(r) =>
      Released(x).(blocked := true, btype := r.btype, keys := KeySet(r.keys), nokey := r.nokey, pending := r.btype != OnModule)
    case None =>
      Released(x).(unblocked := x.unblocked || !x.isModule)
  }

  /** What is added to the list of unblocked clients. */
  function GoesOn(c: int, x: Client, o: Outcome): seq<int> {
    if o.again.None? && !x.isModule && !x.unblocked then [c] else []
  }

  /** One visit: nothing happens, or c leaves its queues, its command signals keys, and c may block again. */
  ghost predicate Turn(a: Scene, b: Scene, c: int, k: Key, step: Step, handling: seq<Key>) {
    && c in a.clients
    && var x, o := a.clients[c], step.outcome;
       if FateOf(x, step, k).Stays? then b == a
       else
         && b.clients == Put(a.clients, c, Rerun(x, o))
         && Moved(a.queues, b.queues, x.keys, Rerun(x, o).keys, c)
         && b.ready == Signalled(Put(a.clients, c, Released(x)), o.signals, handling, a.ready)
         && b.unblocked == a.unblocked + GoesOn(c, x, o)
  }

  ghost predicate SceneOk(s: Scene) {
    ClientsOk(s.clients) && IndexOk(s.clients, s.queues)
  }

  /** A pass: whom it visited, and what each visit found, and what the last one left. */
  datatype Pass = Pass(visited: seq<int>, trail: seq<Scene>)

  ghost predicate Turns(visited: seq<int>, trail: seq<Scene>, steps: nat -> Step, k: Key, handling: seq<Key>) {
    && |trail| == |visited| + 1
    && forall j :: 0 <= j < |visited| ==> Turn(trail[j], trail[j + 1], visited[j], k, steps(j), handling)
  }

  /** The clients waiting for k are visited in order, one turn each. */
  ghost predicate PassOk(from: Scene, p: Pass, to: Scene, steps: nat -> Step, k: Key, handling: seq<Key>) {
    && SceneOk(from) && SceneOk(to) && p.visited == Queue(from.queues, k)
    && Turns(p.visited, p.trail, steps, k, handling) && p.trail[0] == from && p.trail[|p.visited|] == to
  }

  /** The first i turns of it. */
  ghost predicate Begun(w: seq<int>, i: nat, trail: seq<Scene>, now: Scene, steps: nat -> Step, k: Key, handling: seq<Key>) {
    && i <= |w| && Turns(w[..i], trail, steps, k, handling) && trail[i] == now
    && SceneOk(trail[0]) && w == Queue(trail[0].queues, k)
  }

  /** The visited clients with the given fate, in order. */
  function Picked(start: Clients, w: seq<int>, steps: nat -> Step, k: Key, f: Fate): seq<int> {
    if w == [] then []
    else
      var n := |w| - 1;
      Picked(start, w[..n], steps, k, f)
      + if w[n] in start && FateOf(start[w[n]], steps(n), k) == f then [w[n]] else []
  }

  function Stayed(start: Clients, w: seq<int>, steps: nat -> Step, k: Key): seq<int> {
    Picked(start, w, steps, k, Stays)
  }

  /** The queue of k after a pass over w. */
  function AfterPass(start: Clients, w: seq<int>, steps: nat -> Step, k: Key): seq<int> {
    Picked(start, w, steps, k, Stays) + Picked(start, w, steps, k, Requeued)
  }

  /** After i visits: those that stayed, those not visited yet, those that blocked again. */
  ghost predicate Passing(start: Clients, now: Clients, w: seq<int>, i: nat, q: seq<int>, steps: nat -> Step, k: Key) {
    && i <= |w| && NoDup(w) && (forall j :: 0 <= j < |w| ==> w[j] in start)
    && q == Stayed(start, w[..i], steps, k) + w[i..] + Picked(start, w[..i], steps, k, Requeued)
    && Untouched(start, now, w[..i])
  }

  /** Only the clients in ws may have changed. */
  ghost predicate Untouched(start: Clients, now: Clients, ws: seq<int>) {
    forall d {:trigger d in now} {:trigger d in ws} :: d in start && d !in ws ==> d in now && now[d] == start[d]
  }

  lemma UntouchedBoth(start: Clients, was: Clients, now: Clients, ws: seq<int>, vs: seq<int>)
    requires Untouched(start, was, ws) && Untouched(was, now, vs)
    ensures Untouched(start, now, ws + vs)
  {
    forall d | d in start && d !in ws + vs
      ensures d in now && now[d] == start[d]
    {
      assert d !in ws && d !in vs && d in was;
    }
  }

  lemma UntouchedPut(start: Clients, was: Clients, ws: seq<int>, c: int, x: Client)
    requires Untouched(start, was, ws)
    ensures Untouched(start, Put(was, c, x), ws + [c])
  {
    forall d | d in start && d !in ws + [c]
      ensures d in Put(was, c, x) && Put(was, c, x)[d] == start[d]
    {
      assert d !in ws;
    }
  }

  lemma PickedSnoc(start: Clients, w: seq<int>, i: nat, steps: nat -> Step, k: Key, f: Fate)
    requires i < |w| && w[i] in start
    ensures Picked(start, w[..i + 1], steps, k, f)
         == Picked(start, w[..i], steps, k, f) + if FateOf(start[w[i]], steps(i), k) == f then [w[i]] else []
  {
    assert w[..i + 1][..i] == w[..i];
  }

  lemma {:induction false} PickedFrom(start: Clients, w: seq<int>, steps: nat -> Step, k: Key, f: Fate)
    ensures forall c :: c in Picked(start, w, steps, k, f) ==> c in w
  {
    if w != [] {
      var n := |w| - 1;
      PickedFrom(start, w[..n], steps, k, f);
      assert w == w[..n] + [w[n]];
    }
  }

  lemma {:induction false} MinusMiddle(a: seq<int>, c: int, b: seq<int>)
    requires c !in a
    ensures Minus(a + [c] + b, c) == a + b
  {
    var s := a + [c] + b;
    if a == [] {
      assert s[1..] == b;
    } else {
      MinusMiddle(a[1..], c, b);
      assert s[1..] == a[1..] + [c] + b;
      assert s[0] == a[0];
      assert a == [a[0]] + a[1..];
    }
  }

  /** next is what follows c in the list. */
  ghost predicate IsNext(q: seq<int>, c: int, next: Option<int>) {
    forall p :: 0 <= p < |q| && q[p] == c ==> next == if p + 1 < |q| then Some(q[p + 1]) else None
  }

  /** The saved node is the next client to visit, whatever happens to this one. */
  lemma NextInPass(start: Clients, now: Clients, w: seq<int>, i: nat, q: seq<int>, steps: nat -> Step, k: Key, next: Option<int>)
    requires Passing(start, now, w, i, q, steps, k) && i < |w|
    requires IsNext(q, w[i], next)
    ensures i + 1 < |w| ==> next == Some(w[i + 1])
  {
    var p := |Stayed(start, w[..i], steps, k)|;
    assert q[p] == w[i];
    if i + 1 < |w| {
      assert q[p + 1] == w[i + 1];
    }
  }

  lemma PassStep(start: Clients, was: Clients, now: Clients, w: seq<int>, i: nat, before: seq<int>, after: seq<int>,
                 steps: nat -> Step, k: Key)
    requires Passing(start, was, w, i, before, steps, k) && i < |w|
    requires w[i] in was && w[i] in now && now == Put(was, w[i], now[w[i]])
    requires after == match FateOf(was[w[i]], steps(i), k)
                      case Stays => before
                      case Leaves => Minus(before, w[i])
                      case Requeued => Minus(before, w[i]) + [w[i]]
    ensures Passing(start, now, w, i + 1, after, steps, k)
  {
    hide Put, Picked, FateOf, Minus;
    var c := w[i];
    assert w[..i + 1] == w[..i] + [c];
    assert c !in w[..i];
    assert c in was && was[c] == start[c];
    UntouchedPut(start, was, w[..i], c, now[c]);
    hide Untouched;
    PassQueue(start, w, i, before, after, steps, k);
  }

  lemma PassQueue(start: Clients, w: seq<int>, i: nat, before: seq<int>, after: seq<int>, steps: nat -> Step, k: Key)
    requires i < |w| && w[i] in start && w[i] !in w[..i]
    requires before == Stayed(start, w[..i], steps, k) + w[i..] + Picked(start, w[..i], steps, k, Requeued)
    requires after == match FateOf(start[w[i]], steps(i), k)
                      case Stays => before
                      case Leaves => Minus(before, w[i])
                      case Requeued => Minus(before, w[i]) + [w[i]]
    ensures after == Stayed(start, w[..i + 1], steps, k) + w[i + 1..] + Picked(start, w[..i + 1], steps, k, Requeued)
  {
    hide Picked, FateOf;
    var c, kept, tail := w[i], Stayed(start, w[..i], steps, k), Picked(start, w[..i], steps, k, Requeued);
    PickedFrom(start, w[..i], steps, k, Stays);
    PickedSnoc(start, w, i, steps, k, Stays);
    PickedSnoc(start, w, i, steps, k, Requeued);
    assert w[i..] == [c] + w[i + 1..];
    assert before == kept + [c] + (w[i + 1..] + tail);
    MinusMiddle(kept, c, w[i + 1..] + tail);
  }

  /** A turn, as the queue of k sees it. */
  lemma TurnQueue(a: Scene, b: Scene, c: int, k: Key, step: Step, handling: seq<Key>)
    requires Turn(a, b, c, k, step, handling) && k in a.clients[c].keys
    ensures c in b.clients && b.clients == Put(a.clients, c, b.clients[c])
    ensures Queue(b.queues, k) == match FateOf(a.clients[c], step, k)
                                  case Stays => Queue(a.queues, k)
                                  case Leaves => Minus(Queue(a.queues, k), c)
                                  case Requeued => Minus(Queue(a.queues, k), c) + [c]
  {
    PutSame(a.clients, c);
    hide Signalled, Minus, Put;
  }

  /** The shape of the queue at any time of a pass. */
  lemma {:induction false} PassingAt(w: seq<int>, i: nat, trail: seq<Scene>, now: Scene, steps: nat -> Step, k: Key, handling: seq<Key>)
    requires Begun(w, i, trail, now, steps, k, handling)
    ensures |trail| == i + 1 && Passing(trail[0].clients, now.clients, w, i, Queue(now.queues, k), steps, k)
  {
    hide Turn, Passing, IndexOk, ClientsOk;
    var from := trail[0];
    if i == 0 {
      StartPass(w, from, steps, k);
    } else {
      var m := i - 1;
      BegunBefore(w, i, trail, now, steps, k, handling);
      PassingAt(w, m, trail[..i], trail[m], steps, k, handling);
      NextWaits(w, m, from, trail[m].clients, Queue(trail[m].queues, k), steps, k);
      TurnQueue(trail[m], now, w[m], k, steps(m), handling);
      PassStep(from.clients, trail[m].clients, now.clients, w, m, Queue(trail[m].queues, k), Queue(now.queues, k), steps, k);
    }
  }

  lemma StartPass(w: seq<int>, from: Scene, steps: nat -> Step, k: Key)
    requires IndexOk(from.clients, from.queues) && w == Queue(from.queues, k)
    ensures Passing(from.clients, from.clients, w, 0, w, steps, k)
  {
    assert w[..0] == [] && w[0..] == w;
    forall j | 0 <= j < |w|
      ensures w[j] in from.clients
    {
      assert w[j] in Queue(from.queues, k) && Waits(from.clients, w[j], k);
    }
  }

  lemma BegunBefore(w: seq<int>, i: nat, trail: seq<Scene>, now: Scene, steps: nat -> Step, k: Key, handling: seq<Key>)
    requires Begun(w, i, trail, now, steps, k, handling) && i > 0
    ensures Begun(w, i - 1, trail[..i], trail[i - 1], steps, k, handling)
    ensures Turn(trail[i - 1], now, w[i - 1], k, steps(i - 1), handling)
  {
    hide Turn, IndexOk, ClientsOk;
    assert w[..i][i - 1] == w[i - 1];
    forall j | 0 <= j < i - 1
      ensures Turn(trail[..i][j], trail[..i][j + 1], w[..i - 1][j], k, steps(j), handling)
    {
      assert w[..i][j] == w[..i - 1][j];
    }
  }

  lemma BegunNext(w: seq<int>, i: nat, trail: seq<Scene>, was: Scene, now: Scene, steps: nat -> Step, k: Key, handling: seq<Key>)
    requires i < |w| && Begun(w, i, trail, was, steps, k, handling) && Turn(was, now, w[i], k, steps(i), handling)
    ensures Begun(w, i + 1, trail + [now], now, steps, k, handling)
  {
    hide Turn, IndexOk, ClientsOk;
    var all := trail + [now];
    forall j | 0 <= j < i + 1
      ensures Turn(all[j], all[j + 1], w[..i + 1][j], k, steps(j), handling)
    {
      if j < i {
        assert w[..i][j] == w[..i + 1][j] && all[j] == trail[j] && all[j + 1] == trail[j + 1];
      }
    }
  }

  /** A client that is still to be visited waits for k, as it did in the beginning. */
  lemma NextWaits(w: seq<int>, i: nat, from: Scene, now: Clients, q: seq<int>, steps: nat -> Step, k: Key)
    requires i < |w| && IndexOk(from.clients, from.queues) && w == Queue(from.queues, k)
    requires Passing(from.clients, now, w, i, q, steps, k)
    ensures w[i] in now && k in now[w[i]].keys
  {
    assert w[i] in Queue(from.queues, k) && Waits(from.clients, w[i], k);
    assert w[i] !in w[..i];
  }

  lemma EndPass(w: seq<int>, trail: seq<Scene>, now: Scene, steps: nat -> Step, k: Key, handling: seq<Key>)
    requires Begun(w, |w|, trail, now, steps, k, handling) && SceneOk(now)
    ensures PassOk(trail[0], Pass(w, trail), now, steps, k, handling)
  {
    hide Turn, IndexOk, ClientsOk;
    assert w[..|w|] == w;
  }

  /** What a pass leaves of the queue of k, and that it touches nobody else. */
  lemma PassKeeps(from: Scene, p: Pass, to: Scene, steps: nat -> Step, k: Key, handling: seq<Key>)
    requires PassOk(from, p, to, steps, k, handling)
    ensures Queue(to.queues, k) == AfterPass(from.clients, p.visited, steps, k) && NoDup(p.visited)
    ensures Untouched(from.clients, to.clients, p.visited) && Kept(from.queues, to.queues, p.visited) && from.ready <= to.ready
  {
    hide Turn, Picked, Kept, Untouched;
    var w := p.visited;
    assert w[..|w|] == w && w[|w|..] == [] && w[0..] == w;
    PassingAt(w, |w|, p.trail, to, steps, k, handling);
    TurnsKeep(w, p.trail, 0, |w|, steps, k, handling);
  }

  lemma TurnKeeps(a: Scene, b: Scene, c: int, k: Key, step: Step, handling: seq<Key>)
    requires Turn(a, b, c, k, step, handling)
    ensures Untouched(a.clients, b.clients, [c]) && Kept(a.queues, b.queues, [c]) && a.ready <= b.ready
  {
    hide Kept, Moved, Signalled;
    var x, o := a.clients[c], step.outcome;
    if FateOf(x, step, k).Stays? {
      KeptSame(a.queues, [c]);
    } else {
      KeptMoved(a.queues, b.queues, x.keys, Rerun(x, o).keys, c);
      SignalledGrows(Put(a.clients, c, Released(x)), o.signals, handling, a.ready);
    }
  }

  // ------------------------------------------------------------------ who is served

  /**
    A client waiting for a list, a sorted set or a stream is answered if the value is one, and
    whatever the value if it wants to know when the key is gone or of another type.
  */
  predicate Answered(x: Client, value: Option<ObjType>) {
    match x.btype
    case OnList => value == Some(ListValue) || x.nokey
    case OnZset => value == Some(ZsetValue) || x.nokey
    case OnStream => value == Some(StreamValue) || x.nokey
    case _ => false
  }

  lemma FateIs(x: Client, step: Step, k: Key)
    requires CanHaveKeys(x.btype)
    ensures FateOf(x, step, k) == if !Answered(x, step.objType) then Stays
                                  else if step.outcome.again.Some? && k in step.outcome.again.value.keys then Requeued
                                  else Leaves
  {}

  /** The visited clients that are not answered, in order. */
  function Unanswered(start: Clients, w: seq<int>, steps: nat -> Step): seq<int> {
    if w == [] then []
    else
      var n := |w| - 1;
      Unanswered(start, w[..n], steps) + if w[n] in start && !Answered(start[w[n]], steps(n).objType) then [w[n]] else []
  }

  /** Those that are answered and block on k again, in order. */
  function BackAgain(start: Clients, w: seq<int>, steps: nat -> Step, k: Key): seq<int> {
    if w == [] then []
    else
      var n := |w| - 1;
      var again := steps(n).outcome.again;
      BackAgain(start, w[..n], steps, k)
      + if w[n] in start && Answered(start[w[n]], steps(n).objType) && again.Some? && k in again.value.keys then [w[n]] else []
  }

  lemma {:induction false} PickedIs(start: Clients, w: seq<int>, steps: nat -> Step, k: Key)
    requires forall i :: 0 <= i < |w| ==> w[i] in start && CanHaveKeys(start[w[i]].btype)
    ensures Picked(start, w, steps, k, Stays) == Unanswered(start, w, steps)
    ensures Picked(start, w, steps, k, Requeued) == BackAgain(start, w, steps, k)
  {
    if w != [] {
      hide FateOf, Answered;
      var n := |w| - 1;
      PickedIs(start, w[..n], steps, k);
      FateIs(start[w[n]], steps(n), k);
    }
  }

  lemma VisitedWaits(from: Scene, k: Key, j: nat)
    requires SceneOk(from) && j < |Queue(from.queues, k)|
    ensures var c := Queue(from.queues, k)[j];
            Waits(from.clients, c, k) && CanHaveKeys(from.clients[c].btype) && from.clients[c].blocked
  {
    var c := Queue(from.queues, k)[j];
    assert c in Queue(from.queues, k) && Waits(from.clients, c, k);
    assert ClientOk(from.clients[c]);
  }

  /** The queue after a pass: those not answered, in their order, and behind them those that blocked on k again. */
  lemma QueueAfter(from: Scene, p: Pass, to: Scene, steps: nat -> Step, k: Key, handling: seq<Key>)
    requires PassOk(from, p, to, steps, k, handling)
    ensures Queue(to.queues, k) == Unanswered(from.clients, p.visited, steps) + BackAgain(from.clients, p.visited, steps, k)
  {
    var w := p.visited;
    forall i | 0 <= i < |w|
      ensures w[i] in from.clients && CanHaveKeys(from.clients[w[i]].btype)
    {
      VisitedWaits(from, k, i);
    }
    PassKeeps(from, p, to, steps, k, handling);
    hide Turns, Kept, Untouched, SceneOk, Picked;
    PickedIs(from.clients, w, steps, k);
  }

  /** What a pass does with one client: nothing, or it leaves all of its queues, and waits only where its command blocked again. */
  lemma WhoIsServed(from: Scene, p: Pass, to: Scene, steps: nat -> Step, k: Key, handling: seq<Key>, j: nat)
    requires PassOk(from, p, to, steps, k, handling) && j < |p.visited|
    ensures var c := p.visited[j];
            && c in from.clients && c in to.clients
            && Treated(from.clients[c], to, c, k, steps(j).objType, steps(j).outcome)
  {
    var c := p.visited[j];
    VisitedWaits(from, k, j);
    VisitedOnce(from, p, to, steps, k, handling, j);
    hide Turn, IndexOk, ClientsOk, Queue, Answered;
    assert Turn(p.trail[j], p.trail[j + 1], c, k, steps(j), handling);
    TurnClient(p.trail[j], p.trail[j + 1], c, k, steps(j), handling);
    Standing(to, c);
  }

  /** Before and after its turn a client is as it was. */
  lemma VisitedOnce(from: Scene, p: Pass, to: Scene, steps: nat -> Step, k: Key, handling: seq<Key>, j: nat)
    requires PassOk(from, p, to, steps, k, handling) && j < |p.visited| && p.visited[j] in from.clients
    ensures var c := p.visited[j];
            && c in p.trail[j].clients && p.trail[j].clients[c] == from.clients[c]
            && (c in p.trail[j + 1].clients ==> c in to.clients && to.clients[c] == p.trail[j + 1].clients[c])
  {
    var c, n := p.visited[j], |p.visited|;
    assert NoDup(Queue(from.queues, k));
    hide Turn, Kept, SceneOk, Queue;
    assert p.visited[0..j] == p.visited[..j] && p.visited[j + 1..n] == p.visited[j + 1..];
    assert c !in p.visited[..j] && c !in p.visited[j + 1..];
    hide NoDup;
    TurnsKeep(p.visited, p.trail, 0, j, steps, k, handling);
    TurnsKeep(p.visited, p.trail, j + 1, n, steps, k, handling);
  }

  ghost predicate Treated(x: Client, to: Scene, c: int, k: Key, value: Option<ObjType>, o: Outcome)
    requires c in to.clients
  {
    var y := to.clients[c];
    if !Answered(x, value) then y == x && c in Queue(to.queues, k)
    else
      match o.again
      case None =>
        && !y.blocked && y.btype == NotBlocked && !y.nokey && !y.pending && y.isModule == x.isModule
        && y.unblocked == (x.unblocked || !x.isModule) && forall q :: c !in Queue(to.queues, q)
      case Some(r) =>
        && y.blocked && y.btype == r.btype && y.nokey == r.nokey && y.pending == (r.btype != OnModule) && y.isModule == x.isModule
        && y.unblocked == x.unblocked && forall q :: c in Queue(to.queues, q) <==> q in r.keys
  }

  /** The visited clients that are answered and go on, in order: those that did not block again, are no modules, and are not listed yet. */
  function GoingOn(start: Clients, w: seq<int>, steps: nat -> Step): seq<int> {
    if w == [] then []
    else
      var n := |w| - 1;
      GoingOn(start, w[..n], steps)
      + if w[n] in start && Answered(start[w[n]], steps(n).objType) && steps(n).outcome.again.None?
           && !start[w[n]].isModule && !start[w[n]].unblocked then [w[n]] else []
  }

  /** The list of unblocked clients after a pass. */
  lemma ListedAfter(from: Scene, p: Pass, to: Scene, steps: nat -> Step, k: Key, handling: seq<Key>)
    requires PassOk(from, p, to, steps, k, handling)
    ensures to.unblocked == from.unblocked + GoingOn(from.clients, p.visited, steps)
  {
    hide SceneOk, Turn;
    assert p.visited[..|p.visited|] == p.visited;
    ListedUpTo(from, p, to, steps, k, handling, |p.visited|);
  }

  lemma {:induction false} ListedUpTo(from: Scene, p: Pass, to: Scene, steps: nat -> Step, k: Key, handling: seq<Key>, i: nat)
    requires PassOk(from, p, to, steps, k, handling) && i <= |p.visited| && |p.trail| == |p.visited| + 1
    ensures p.trail[i].unblocked == from.unblocked + GoingOn(from.clients, p.visited[..i], steps)
    decreases i
  {
    if i == 0 {
      assert p.visited[..0] == [];
    } else {
      var j := i - 1;
      var c := p.visited[j];
      ListedUpTo(from, p, to, steps, k, handling, j);
      VisitedWaits(from, k, j);
      VisitedOnce(from, p, to, steps, k, handling, j);
      hide SceneOk, Answered, Turn;
      assert Turn(p.trail[j], p.trail[i], c, k, steps(j), handling);
      TurnLists(p.trail[j], p.trail[i], c, k, steps(j), handling);
      assert p.visited[..i][..j] == p.visited[..j] && p.visited[..i][j] == c;
    }
  }

  lemma TurnLists(a: Scene, b: Scene, c: int, k: Key, step: Step, handling: seq<Key>)
    requires Turn(a, b, c, k, step, handling) && CanHaveKeys(a.clients[c].btype)
    ensures var x := a.clients[c];
            b.unblocked == a.unblocked + if Answered(x, step.objType) && step.outcome.again.None? && !x.isModule && !x.unblocked then [c] else []
  {
    hide Signalled, Moved;
    FateIs(a.clients[c], step, k);
  }

  /** The clients that a signal is for, by the types of values. */
  lemma WakesIs(c: Client, s: Signal)
    ensures Wakes(c, s) <==>
            && (match s.objType
                case ListValue => c.btype == OnList || c.btype == OnModule
                case ZsetValue => c.btype == OnZset || c.btype == OnModule
                case StreamValue => c.btype == OnStream || c.btype == OnModule
                case ModuleValue => c.btype == OnModule
                case OtherValue => false)
            && (s.deleted ==> c.nokey)
  {}

  /** A key becomes pending only by a signal for it, and only if a client waits for it. */
  lemma {:induction false} OnlySignalled(clients: Clients, signals: seq<Signal>, handling: seq<Key>, ready: seq<Key>, k: Key)
    requires k in Signalled(clients, signals, handling, ready) && k !in ready
    ensures k !in handling && (exists m :: 0 <= m < |signals| && signals[m].key == k) && exists c :: Waits(clients, c, k)
  {
    var n := |signals| - 1;
    var before := Signalled(clients, signals[..n], handling, ready);
    if k in before {
      OnlySignalled(clients, signals[..n], handling, ready, k);
      var m :| 0 <= m < n && signals[..n][m].key == k;
      assert signals[m].key == k;
    } else {
      assert signals[n].key == k && AnyWaiting(clients, k, signals[n].deleted);
      var c :| Waits(clients, c, k) && (signals[n].deleted ==> clients[c].nokey);
    }
  }

  lemma TurnClient(a: Scene, b: Scene, c: int, k: Key, step: Step, handling: seq<Key>)
    requires Turn(a, b, c, k, step, handling) && CanHaveKeys(a.clients[c].btype)
    ensures c in b.clients && b.clients[c] == if Answered(a.clients[c], step.objType) then Rerun(a.clients[c], step.outcome) else a.clients[c]
  {
    hide Signalled, Moved;
    FateIs(a.clients[c], step, k);
  }

  lemma Standing(s: Scene, c: int)
    requires SceneOk(s) && c in s.clients
    ensures forall q :: c in Queue(s.queues, q) <==> q in s.clients[c].keys
  {
    forall q
      ensures c in Queue(s.queues, q) <==> q in s.clients[c].keys
    {
      assert c in Queue(s.queues, q) <==> Waits(s.clients, c, q);
    }
  }

  /** From one moment of a pass to another. */
  lemma {:induction false} TurnsKeep(visited: seq<int>, trail: seq<Scene>, j: nat, m: nat, steps: nat -> Step, k: Key, handling: seq<Key>)
    requires Turns(visited, trail, steps, k, handling) && j <= m <= |visited|
    ensures var ws := visited[j..m];
            && Untouched(trail[j].clients, trail[m].clients, ws) && Kept(trail[j].queues, trail[m].queues, ws)
            && trail[j].ready <= trail[m].ready
    decreases m - j
  {
    if j < m {
      hide Turn, Kept, Untouched;
      var n := m - 1;
      TurnsKeep(visited, trail, j, n, steps, k, handling);
      TurnKeeps(trail[n], trail[m], visited[n], k, steps(n), handling);
      assert visited[j..m] == visited[j..n] + [visited[n]];
      UntouchedBoth(trail[j].clients, trail[n].clients, trail[m].clients, visited[j..n], [visited[n]]);
      KeptBoth(trail[j].queues, trail[n].queues, trail[m].queues, visited[j..n], [visited[n]]);
    }
  }

  lemma {:induction false} SignalledGrows(clients: Clients, signals: seq<Signal>, handling: seq<Key>, ready: seq<Key>)
    ensures ready <= Signalled(clients, signals, handling, ready)
  {
    hide Heeded;
    if signals != [] {
      SignalledGrows(clients, signals[..|signals| - 1], handling, ready);
    }
  }

  lemma {:induction false} SignalledHas(clients: Clients, signals: seq<Signal>, handling: seq<Key>, ready: seq<Key>, m: nat)
    requires m < |signals| && Heeded(clients, signals[m])
    ensures signals[m].key in handling + Signalled(clients, signals, handling, ready)
  {
    hide Heeded;
    var n := |signals| - 1;
    if m < n {
      SignalledHas(clients, signals[..n], handling, ready, m);
    }
  }

  // ------------------------------------------------------- who is visited, and when

  /** q without the clients in ws. */
  function Rest(q: seq<int>, ws: seq<int>): seq<int> {
    if q == [] then [] else (if q[0] in ws then [] else [q[0]]) + Rest(q[1..], ws)
  }

  /** Apart from the clients in ws every queue is as it was. */
  ghost predicate Kept(before: Queues, after: Queues, ws: seq<int>) {
    forall j {:trigger Queue(after, j)} :: Rest(Queue(after, j), ws) == Rest(Queue(before, j), ws)
  }

  lemma KeptSame(queues: Queues, ws: seq<int>)
    ensures Kept(queues, queues, ws)
  {}

  lemma {:induction false} RestAppend(a: seq<int>, b: seq<int>, ws: seq<int>)
    ensures Rest(a + b, ws) == Rest(a, ws) + Rest(b, ws)
  {
    if a == [] {
      assert a + b == b;
    } else {
      assert (a + b)[1..] == a[1..] + b;
      RestAppend(a[1..], b, ws);
    }
  }

  lemma {:induction false} RestMinus(q: seq<int>, c: int)
    ensures Rest(Minus(q, c), [c]) == Rest(q, [c])
  {
    if q != [] && q[0] != c {
      RestMinus(q[1..], c);
      var m := Minus(q, c);
      assert m[1..] == Minus(q[1..], c);
    }
  }

  /** Leaving out more is leaving out more of what was left. */
  lemma {:induction false} RestTwice(q: seq<int>, ws: seq<int>, all: seq<int>)
    requires forall c :: c in ws ==> c in all
    ensures Rest(q, all) == Rest(Rest(q, ws), all)
  {
    if q != [] {
      RestTwice(q[1..], ws, all);
      var r := Rest(q, ws);
      if q[0] in ws {
        assert r == Rest(q[1..], ws);
      } else {
        assert r[0] == q[0] && r[1..] == Rest(q[1..], ws);
      }
    }
  }

  lemma KeptMoved(before: Queues, after: Queues, from: set<Key>, to: set<Key>, c: int)
    requires Moved(before, after, from, to, c)
    ensures Kept(before, after, [c])
  {
    forall j
      ensures Rest(Queue(after, j), [c]) == Rest(Queue(before, j), [c])
    {
      var left := if j in from then Minus(Queue(before, j), c) else Queue(before, j);
      RestMinus(Queue(before, j), c);
      RestAppend(left, if j in to then [c] else [], [c]);
    }
  }

  lemma KeptBoth(before: Queues, mid: Queues, after: Queues, ws: seq<int>, vs: seq<int>)
    requires Kept(before, mid, ws) && Kept(mid, after, vs)
    ensures Kept(before, after, ws + vs)
  {
    forall j
      ensures Rest(Queue(after, j), ws + vs) == Rest(Queue(before, j), ws + vs)
    {
      var a, m, b := Queue(after, j), Queue(mid, j), Queue(before, j);
      RestTwice(a, vs, ws + vs);
      RestTwice(m, vs, ws + vs);
      RestTwice(m, ws, ws + vs);
      RestTwice(b, ws, ws + vs);
    }
  }

  /** All the clients visited, in order. */
  function Joint(passes: seq<Pass>): seq<int> {
    if passes == [] then [] else Joint(passes[..|passes| - 1]) + passes[|passes| - 1].visited
  }

  /** v is q, each client once, but for those in ws. */
  ghost predicate IsVisit(q: seq<int>, v: seq<int>, ws: seq<int>) {
    NoDup(v) && Rest(v, ws) == Rest(q, ws)
  }

  ghost predicate Visits(start: Queues, handled: seq<Key>, passes: seq<Pass>) {
    && |passes| == |handled|
    && forall i :: 0 <= i < |passes| ==> IsVisit(Queue(start, handled[i]), passes[i].visited, Joint(passes[..i]))
  }

  // --------------------------------------------------------------------------- rounds

  function Steps(steps: (nat, nat, nat) -> Step, n: nat, i: nat): nat -> Step {
    (j: nat) => steps(n, i, j)
  }

  lemma AnyStep(steps: (nat, nat, nat) -> Step, n: nat, i: nat)
    requires forall i, j :: GoodStep(steps(n, i, j))
    ensures forall j :: GoodStep(Steps(steps, n, i)(j))
  {}

  /** A round: the keys it handled, the pass for each, what each pass found, and what the last one left. */
  datatype Round = Round(handled: seq<Key>, passes: seq<Pass>, trail: seq<Scene>)

  /** The passes for the first of the keys: each finds what the one before it left. */
  ghost predicate Passes(keys: seq<Key>, passes: seq<Pass>, trail: seq<Scene>, steps: (nat, nat, nat) -> Step, n: nat) {
    && |passes| <= |keys| && |trail| == |passes| + 1
    && forall i :: 0 <= i < |passes| ==> PassOk(trail[i], passes[i], trail[i + 1], Steps(steps, n, i), keys[i], keys[i + 1..])
  }

  /** All the keys that were pending are handled, beginning with a fresh list. */
  ghost predicate RoundOk(from: Scene, r: Round, to: Scene, steps: (nat, nat, nat) -> Step, n: nat) {
    && r.handled == from.ready && |r.passes| == |r.handled| && Passes(r.handled, r.passes, r.trail, steps, n)
    && r.trail[0] == from.(ready := []) && r.trail[|r.passes|] == to
  }

  /** Each round finds what the one before it left. */
  ghost predicate Rounds(from: Scene, rounds: seq<Round>, trail: seq<Scene>, to: Scene, steps: (nat, nat, nat) -> Step) {
    && |trail| == |rounds| + 1 && trail[0] == from && trail[|rounds|] == to
    && forall n :: 0 <= n < |rounds| ==> rounds[n].handled != [] && RoundOk(trail[n], rounds[n], trail[n + 1], steps, n)
  }

  lemma NoPasses(keys: seq<Key>, s: Scene, steps: (nat, nat, nat) -> Step, n: nat)
    ensures Passes(keys, [], [s], steps, n)
  {}

  lemma PassesNext(keys: seq<Key>, passes: seq<Pass>, trail: seq<Scene>, p: Pass, to: Scene, steps: (nat, nat, nat) -> Step, n: nat)
    requires Passes(keys, passes, trail, steps, n) && |passes| < |keys|
    requires var i := |passes|; PassOk(trail[i], p, to, Steps(steps, n, i), keys[i], keys[i + 1..])
    ensures Passes(keys, passes + [p], trail + [to], steps, n)
  {
    hide PassOk;
  }

  lemma NoRounds(s: Scene, steps: (nat, nat, nat) -> Step)
    ensures Rounds(s, [], [s], s, steps)
  {}

  lemma RoundsNext(from: Scene, rounds: seq<Round>, trail: seq<Scene>, was: Scene, r: Round, to: Scene, steps: (nat, nat, nat) -> Step)
    requires Rounds(from, rounds, trail, was, steps) && RoundOk(was, r, to, steps, |rounds|) && was.ready != []
    ensures Rounds(from, rounds + [r], trail + [to], to, steps)
  {
    hide Passes;
    var all, scenes := rounds + [r], trail + [to];
    forall n | 0 <= n < |all|
      ensures all[n].handled != [] && RoundOk(scenes[n], all[n], scenes[n + 1], steps, n)
    {
      if n < |rounds| {
        assert all[n] == rounds[n] && scenes[n] == trail[n] && scenes[n + 1] == trail[n + 1];
        assert RoundOk(trail[n], rounds[n], trail[n + 1], steps, n);
      }
    }
  }

  lemma JointUpTo(passes: seq<Pass>, i: nat)
    requires 0 < i <= |passes|
    ensures Joint(passes[..i]) == Joint(passes[..i - 1]) + passes[i - 1].visited
  {
    assert passes[..i][..i - 1] == passes[..i - 1];
  }

  /** From the beginning of a round to a later pass. */
  lemma {:induction false} PassesKeep(keys: seq<Key>, passes: seq<Pass>, trail: seq<Scene>, steps: (nat, nat, nat) -> Step, n: nat, i: nat)
    requires Passes(keys, passes, trail, steps, n) && i <= |passes|
    ensures var ws := Joint(passes[..i]);
            Untouched(trail[0].clients, trail[i].clients, ws) && Kept(trail[0].queues, trail[i].queues, ws)
    decreases i
  {
    if i > 0 {
      hide PassOk, Kept, Untouched, AfterPass, NoDup, Joint, Steps;
      var m := i - 1;
      PassesKeep(keys, passes, trail, steps, n, m);
      PassKeeps(trail[m], passes[m], trail[i], Steps(steps, n, m), keys[m], keys[m + 1..]);
      JointUpTo(passes, i);
      UntouchedBoth(trail[0].clients, trail[m].clients, trail[i].clients, Joint(passes[..m]), passes[m].visited);
      KeptBoth(trail[0].queues, trail[m].queues, trail[i].queues, Joint(passes[..m]), passes[m].visited);
    }
  }

  /** Whom a round visits, in terms of the queues when it began; nobody else is touched. */
  lemma RoundVisits(from: Scene, r: Round, to: Scene, steps: (nat, nat, nat) -> Step, n: nat)
    requires RoundOk(from, r, to, steps, n)
    ensures Visits(from.queues, r.handled, r.passes)
    ensures Untouched(from.clients, to.clients, Joint(r.passes)) && Kept(from.queues, to.queues, Joint(r.passes))
  {
    hide PassOk, Untouched, Kept;
    forall i | 0 <= i < |r.passes|
      ensures IsVisit(Queue(from.queues, r.handled[i]), r.passes[i].visited, Joint(r.passes[..i]))
    {
      PassesKeep(r.handled, r.passes, r.trail, steps, n, i);
      VisitedInOrder(from.queues, r.trail[i], r.passes[i], r.trail[i + 1], Steps(steps, n, i), r.handled[i], r.handled[i + 1..], Joint(r.passes[..i]));
    }
    assert r.passes[..|r.passes|] == r.passes;
    PassesKeep(r.handled, r.passes, r.trail, steps, n, |r.passes|);
  }

  lemma VisitedInOrder(start: Queues, from: Scene, p: Pass, to: Scene, steps: nat -> Step, k: Key, handling: seq<Key>, ws: seq<int>)
    requires PassOk(from, p, to, steps, k, handling) && Kept(start, from.queues, ws)
    ensures IsVisit(Queue(start, k), p.visited, ws)
  {
    PassKeeps(from, p, to, steps, k, handling);
  }

  /** d is visited in one of the passes from the i-th on. */
  ghost predicate VisitedFrom(passes: seq<Pass>, i: nat, d: int) {
    exists j :: i <= j < |passes| && d in passes[j].visited
  }

  /**
    Whoever waits for a key that is pending at some time of a round, and is not visited from
    then on, still waits when the round is over, and the key is pending for the next one. If
    it is one of the keys that the round has still to handle, they are visited.
  */
  lemma {:induction false} StaysPending(keys: seq<Key>, passes: seq<Pass>, trail: seq<Scene>, steps: (nat, nat, nat) -> Step, n: nat, i: nat, k: Key, d: int)
    requires Passes(keys, passes, trail, steps, n) && |passes| == |keys| && i <= |keys|
    requires Waits(trail[i].clients, d, k) && k in keys[i..] + trail[i].ready
    ensures k in keys[i..] ==> VisitedFrom(passes, i, d)
    ensures VisitedFrom(passes, i, d) || (Waits(trail[|keys|].clients, d, k) && k in trail[|keys|].ready)
    decreases |keys| - i
  {
    hide PassOk;
    if i < |keys| {
      var p := passes[i];
      assert keys[i..] == [keys[i]] + keys[i + 1..];
      if d !in p.visited {
        NotVisited(trail[i], p, trail[i + 1], Steps(steps, n, i), keys[i], keys[i + 1..], k, d);
        StaysPending(keys, passes, trail, steps, n, i + 1, k, d);
      }
    }
  }

  lemma NotVisited(from: Scene, p: Pass, to: Scene, steps: nat -> Step, key: Key, handling: seq<Key>, k: Key, d: int)
    requires PassOk(from, p, to, steps, key, handling) && Waits(from.clients, d, k) && d !in p.visited
    ensures k != key && Waits(to.clients, d, k) && from.ready <= to.ready
  {
    PassKeeps(from, p, to, steps, key, handling);
    hide Turns;
    assert k == key ==> d in Queue(from.queues, k);
  }

  /** A client that waits when a round begins, for a key that is pending then, is visited in that round. */
  lemma NobodyWaitsLonger(from: Scene, r: Round, to: Scene, steps: (nat, nat, nat) -> Step, n: nat, k: Key, d: int)
    requires RoundOk(from, r, to, steps, n) && k in from.ready && Waits(from.clients, d, k)
    ensures VisitedFrom(r.passes, 0, d)
  {
    hide Passes;
    assert r.handled[0..] == r.handled;
    StaysPending(r.handled, r.passes, r.trail, steps, n, 0, k, d);
  }

  /** The signals of a client that is served reach everybody else who waits at that time. */
  lemma TurnWakes(a: Scene, b: Scene, c: int, k: Key, step: Step, handling: seq<Key>, m: nat, d: int)
    requires Turn(a, b, c, k, step, handling) && !FateOf(a.clients[c], step, k).Stays?
    requires m < |step.outcome.signals| && d != c
    requires Waits(a.clients, d, step.outcome.signals[m].key) && Wakes(a.clients[d], step.outcome.signals[m])
    ensures step.outcome.signals[m].key in handling + b.ready && Waits(b.clients, d, step.outcome.signals[m].key)
  {
    var s := step.outcome.signals[m];
    var now := Put(a.clients, c, Released(a.clients[c]));
    assert d in now && now[d] == a.clients[d] && Waits(now, d, s.key);
    SignalledHas(now, step.outcome.signals, handling, a.ready, m);
  }

  /** The rest of the pass: d is visited in it or still waits when it is over. */
  lemma PassWakes(from: Scene, p: Pass, to: Scene, steps: nat -> Step, key: Key, handling: seq<Key>, j: nat, m: nat, d: int)
    requires PassOk(from, p, to, steps, key, handling) && j < |p.visited| && m < |steps(j).outcome.signals|
    requires p.visited[j] in p.trail[j].clients && !FateOf(p.trail[j].clients[p.visited[j]], steps(j), key).Stays? && d != p.visited[j]
    requires var s := steps(j).outcome.signals[m]; Waits(p.trail[j].clients, d, s.key) && Wakes(p.trail[j].clients[d], s)
    ensures var k := steps(j).outcome.signals[m].key;
            d in p.visited[j + 1..] || (Waits(to.clients, d, k) && k in handling + to.ready)
  {
    hide Turn, FateOf, Wakes, IndexOk, Kept;
    var n := |p.visited|;
    assert Turn(p.trail[j], p.trail[j + 1], p.visited[j], key, steps(j), handling);
    TurnWakes(p.trail[j], p.trail[j + 1], p.visited[j], key, steps(j), handling, m, d);
    TurnsKeep(p.visited, p.trail, j + 1, n, steps, key, handling);
    assert p.visited[j + 1..n] == p.visited[j + 1..];
  }

  /**
    No wake-up is lost: if the command of a client that is served signals a key, at any time of
    any round, and another client waits for it at that time that the signal is for, then that
    client is visited later in the same pass, in a later pass of the round, or in the next round.
    If there is no next round, it still waits and the key is pending.
  */
  lemma NobodyForgotten(from: Scene, rounds: seq<Round>, trail: seq<Scene>, to: Scene, steps: (nat, nat, nat) -> Step,
                        n: nat, i: nat, j: nat, m: nat, d: int)
    requires Rounds(from, rounds, trail, to, steps) && n < |rounds| && i < |rounds[n].passes|
    requires SignalFor(rounds[n], i, j, Steps(steps, n, i), m, d)
    ensures var k := steps(n, i, j).outcome.signals[m].key;
            || d in rounds[n].passes[i].visited[j + 1..]
            || VisitedFrom(rounds[n].passes, i + 1, d)
            || if n + 1 < |rounds| then VisitedFrom(rounds[n + 1].passes, 0, d) else k in to.ready && Waits(to.clients, d, k)
  {
    hide PassOk, FateOf, Wakes;
    var r := rounds[n];
    assert RoundOk(trail[n], r, trail[n + 1], steps, n);
    var p, k := r.passes[i], steps(n, i, j).outcome.signals[m].key;
    var rest := r.handled[i + 1..];
    assert Steps(steps, n, i)(j) == steps(n, i, j);
    PassWakes(r.trail[i], p, r.trail[i + 1], Steps(steps, n, i), r.handled[i], rest, j, m, d);
    if d !in p.visited[j + 1..] {
      StaysPending(r.handled, r.passes, r.trail, steps, n, i + 1, k, d);
      if !VisitedFrom(r.passes, i + 1, d) && n + 1 < |rounds| {
        NobodyWaitsLonger(trail[n + 1], rounds[n + 1], trail[n + 2], steps, n + 1, k, d);
      }
    }
  }

  /** The j-th visit of the i-th pass serves a client whose m-th signal is for d, another client. */
  ghost predicate SignalFor(r: Round, i: nat, j: nat, steps: nat -> Step, m: nat, d: int)
    requires i < |r.passes|
  {
    var p := r.passes[i];
    && i < |r.handled| && j < |p.visited| && |p.trail| > j && m < |steps(j).outcome.signals|
    && var c, now, s := p.visited[j], p.trail[j].clients, steps(j).outcome.signals[m];
       && c in now && !FateOf(now[c], steps(j), r.handled[i]).Stays?
       && d != c && Waits(now, d, s.key) && Wakes(now[d], s)
  }

  lemma {:induction false} RestIn(q: seq<int>, ws: seq<int>, c: int)
    ensures c in Rest(q, ws) <==> c in q && c !in ws
  {
    if q != [] {
      RestIn(q[1..], ws, c);
    }
  }

  /** Whoever waited for a key that is handled has been visited when its turn is over. */
  lemma NobodySkipped(start: Queues, handled: seq<Key>, passes: seq<Pass>, i: nat, c: int)
    requires Visits(start, handled, passes) && i < |passes| && c in Queue(start, handled[i])
    ensures c in Joint(passes[..i]) || c in passes[i].visited
  {
    var ws := Joint(passes[..i]);
    assert IsVisit(Queue(start, handled[i]), passes[i].visited, ws);
    RestIn(passes[i].visited, ws, c);
    RestIn(Queue(start, handled[i]), ws, c);
  }
}
