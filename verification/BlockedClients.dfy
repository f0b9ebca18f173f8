/** Clients that wait for list elements: who waits where, and what the lists hold. */
module WaitingLists {
  import opened Options

  type Client = nat
  type Key = nat
  type Elem = string

  // A value of another type is of a kind that clients wait for, a sorted set or a stream, or of one they do not.
  datatype Object = Missing | List(elems: seq<Elem>) | OtherType(awaited: bool)

  datatype End = Head | Tail

  // What a blocked client waits for: a list element from one of its keys, or something of another type.
  datatype Wait = Wait(keys: set<Key>, isList: bool, target: Option<Key>, from: End)

  datatype Reply =
    | Popped(client: Client, key: Key, value: Elem)
    | Moved(client: Client, key: Key, target: Key, value: Elem)
    | WrongType(client: Client)

  /******* The two-way index *******/

  ghost predicate Distinct<T>(s: seq<T>) { s == [] || (s[0] !in s[1..] && Distinct(s[1..])) }

  ghost predicate Mirrors(queue: seq<Client>, waiting: map<Client, Wait>, k: Key) {
    Distinct(queue) && forall c :: c in queue <==> c in waiting && k in waiting[c].keys
  }

  // Each client stands in the queues of exactly the keys it waits for, once.
  ghost predicate IndexOk(blocking: seq<seq<Client>>, waiting: map<Client, Wait>) {
    && (forall k: Key | k < |blocking| :: Mirrors(blocking[k], waiting, k))
    && (forall c | c in waiting :: WaitOk(|blocking|, waiting[c]))
  }

  ghost predicate WaitOk(n: nat, w: Wait) {
    w.keys != {} && (forall k | k in w.keys :: k < n) && (w.target.Some? ==> w.target.value < n)
  }

  function Without(queue: seq<Client>, c: Client): (r: seq<Client>)
    ensures c !in r && forall d | d != c :: d in r <==> d in queue
    ensures c !in queue ==> r == queue
  {
    if queue == [] then [] else (if queue[0] == c then [] else [queue[0]]) + Without(queue[1..], c)
  }

  lemma {:induction false} WithoutDistinct(queue: seq<Client>, c: Client)
    requires Distinct(queue)
    ensures Distinct(Without(queue, c))
    ensures queue != [] && queue[0] == c ==> Without(queue, c) == queue[1..]
  {
    if queue != [] {
      WithoutDistinct(queue[1..], c);
      var rest := Without(queue[1..], c);
      assert queue[0] !in rest;
      assert ([queue[0]] + rest)[1..] == rest && [] + rest == rest;
    }
  }

  lemma {:induction false} SnocDistinct<T>(s: seq<T>, x: T)
    requires Distinct(s) && x !in s
    ensures Distinct(s + [x])
  {
    if s != [] {
      SnocDistinct(s[1..], x);
      assert (s + [x])[1..] == s[1..] + [x];
    }
  }

  // The clients among them that wait for lists, and the others.
  function ListWaiters(queue: seq<Client>, waiting: map<Client, Wait>): seq<Client> {
    if queue == [] then []
    else ListWaiters(queue[..|queue| - 1], waiting)
         + var c := queue[|queue| - 1]; if c in waiting && waiting[c].isList then [c] else []
  }

  function OtherWaiters(queue: seq<Client>, waiting: map<Client, Wait>): seq<Client> {
    if queue == [] then []
    else OtherWaiters(queue[..|queue| - 1], waiting)
         + var c := queue[|queue| - 1]; if c in waiting && waiting[c].isList then [] else [c]
  }

  lemma {:induction false} OthersWaitForNoList(queue: seq<Client>, waiting: map<Client, Wait>)
    ensures NoListWaiter(OtherWaiters(queue, waiting), waiting)
  {
    if queue != [] {
      OthersWaitForNoList(queue[..|queue| - 1], waiting);
    }
  }

  // After looking at `seen` clients of a queue: those waiting for lists are gone, the others at the end.
  ghost predicate Progress(queue: seq<Client>, clients: map<Client, Wait>, seen: nat,
                           now: seq<Client>, waiting: map<Client, Wait>, served: seq<Client>)
  {
    && seen <= |queue| && now == queue[seen..] + OtherWaiters(queue[..seen], clients)
    && served == ListWaiters(queue[..seen], clients)
    && waiting.Keys <= clients.Keys && forall c | c in waiting :: waiting[c] == clients[c]
  }

  lemma ProgressStarts(queue: seq<Client>, clients: map<Client, Wait>)
    ensures Progress(queue, clients, 0, queue, clients, [])
  {
    assert queue[..0] == [] && queue[0..] + [] == queue;
  }

  lemma ProgressRotates(queue: seq<Client>, clients: map<Client, Wait>, seen: nat,
                        now: seq<Client>, waiting: map<Client, Wait>, served: seq<Client>)
    requires Progress(queue, clients, seen, now, waiting, served) && seen < |queue|
    requires queue[seen] in waiting && !waiting[queue[seen]].isList
    ensures now[0] == queue[seen] && Progress(queue, clients, seen + 1, now[1..] + [now[0]], waiting, served)
  {
    assert queue[..seen + 1][..seen] == queue[..seen];
    assert now[1..] == queue[seen + 1..] + OtherWaiters(queue[..seen], clients);
  }

  lemma ProgressServes(queue: seq<Client>, clients: map<Client, Wait>, seen: nat,
                       now: seq<Client>, waiting: map<Client, Wait>, served: seq<Client>)
    requires Progress(queue, clients, seen, now, waiting, served) && seen < |queue|
    requires queue[seen] in waiting && waiting[queue[seen]].isList
    ensures now[0] == queue[seen] && Progress(queue, clients, seen + 1, now[1..], waiting - {now[0]}, served + [now[0]])
  {
    assert queue[..seen + 1][..seen] == queue[..seen];
    assert now[1..] == queue[seen + 1..] + OtherWaiters(queue[..seen], clients);
  }

  // The head of a queue is the next client to be looked at; serving or rotating it is progress.
  lemma ProgressOfHead(blocking: seq<seq<Client>>, waiting: map<Client, Wait>, key: Key,
                       queue: seq<Client>, clients: map<Client, Wait>, seen: nat, served: seq<Client>)
    requires IndexOk(blocking, waiting) && key < |blocking|
    requires Progress(queue, clients, seen, blocking[key], waiting, served) && seen < |queue|
    ensures blocking[key] != [] && blocking[key][0] == queue[seen] && queue[seen] in waiting
    ensures if waiting[queue[seen]].isList
      then Progress(queue, clients, seen + 1,
                    Without(blocking[key], queue[seen]), waiting - {queue[seen]}, served + [queue[seen]])
      else Progress(queue, clients, seen + 1, blocking[key][1..] + [blocking[key][0]], waiting, served)
  {
    assert Mirrors(blocking[key], waiting, key) && blocking[key][0] == queue[seen];
    if waiting[queue[seen]].isList {
      ProgressServes(queue, clients, seen, blocking[key], waiting, served);
      WithoutDistinct(blocking[key], queue[seen]);
    } else {
      ProgressRotates(queue, clients, seen, blocking[key], waiting, served);
    }
  }

  lemma FewerWait(waiting: map<Client, Wait>, clients: map<Client, Wait>, c: Client)
    requires waiting.Keys <= clients.Keys && c in waiting
    ensures (waiting - {c}).Keys < clients.Keys
  {
    assert c in clients.Keys && c !in (waiting - {c}).Keys;
  }

  lemma ReceiversSnoc(replies: seq<Reply>, r: Reply)
    ensures Receivers(replies + [r]) == Receivers(replies) + [r.client]
  {
  }

  lemma ProgressEnds(queue: seq<Client>, clients: map<Client, Wait>, now: seq<Client>, waiting: map<Client, Wait>,
                     served: seq<Client>)
    requires Progress(queue, clients, |queue|, now, waiting, served)
    ensures NoListWaiter(now, waiting)
  {
    assert queue[|queue|..] == [] && queue[..|queue|] == queue;
    assert now == OtherWaiters(queue, clients);
    OthersWaitForNoList(queue, clients);
  }

  /******* What the lists hold *******/

  function Copies(o: Object, v: Elem): nat { if o.List? then multiset(o.elems)[v] else 0 }

  // How many copies of v all lists hold together, and how many were handed to clients.
  function Stored(store: seq<Object>, v: Elem): nat {
    if store == [] then 0 else Stored(store[..|store| - 1], v) + Copies(store[|store| - 1], v)
  }

  function Delivered(replies: seq<Reply>, v: Elem): nat {
    if replies == [] then 0
    else
      var r := replies[|replies| - 1];
      Delivered(replies[..|replies| - 1], v) + if r.Popped? && r.value == v then 1 else 0
  }

  lemma {:induction false} StoredUpdate(store: seq<Object>, k: Key, o: Object, v: Elem)
    requires k < |store|
    ensures Stored(store[k := o], v) == Stored(store, v) - Copies(store[k], v) + Copies(o, v)
  {
    var last := |store| - 1;
    if k == last {
      assert store[k := o][..last] == store[..last];
    } else {
      assert store[k := o][..last] == store[..last][k := o];
      StoredUpdate(store[..last], k, o, v);
    }
  }

  // Nothing is lost and nothing is made.
  ghost predicate Conserved(store: seq<Object>, replies: seq<Reply>, store': seq<Object>, replies': seq<Reply>) {
    forall v: Elem :: Stored(store', v) + Delivered(replies', v) == Stored(store, v) + Delivered(replies, v)
  }

  lemma ConservedOn(s0: seq<Object>, r0: seq<Reply>, s1: seq<Object>, r1: seq<Reply>, s2: seq<Object>, r2: seq<Reply>)
    requires Conserved(s0, r0, s1, r1) && Conserved(s1, r1, s2, r2)
    ensures Conserved(s0, r0, s2, r2)
  {
  }

  lemma PopDelivers(store: seq<Object>, replies: seq<Reply>, k: Key, from: End, c: Client)
    requires k < |store| && store[k].List? && store[k].elems != []
    ensures var p := PopFrom(store[k].elems, from);
      Conserved(store, replies, store[k := List(p.1)], replies + [Popped(c, k, p.0)])
  {
    var p := PopFrom(store[k].elems, from);
    assert (replies + [Popped(c, k, p.0)])[..|replies|] == replies;
    forall v: Elem
      ensures Stored(store[k := List(p.1)], v) + Delivered(replies + [Popped(c, k, p.0)], v)
        == Stored(store, v) + Delivered(replies, v)
    {
      StoredUpdate(store, k, List(p.1), v);
    }
  }

  function Kept(elems: seq<Elem>): Object { if elems == [] then Missing else List(elems) }

  lemma PopAndDropConserves(store: seq<Object>, replies: seq<Reply>, k: Key, from: End, c: Client)
    requires k < |store| && store[k].List? && store[k].elems != []
    ensures var p := PopFrom(store[k].elems, from);
      Conserved(store, replies, store[k := Kept(p.1)], replies + [Popped(c, k, p.0)])
  {
    var p := PopFrom(store[k].elems, from);
    var replies' := replies + [Popped(c, k, p.0)];
    PopDelivers(store, replies, k, from, c);
    forall v: Elem
      ensures Stored(store[k := Kept(p.1)], v) + Delivered(replies', v) == Stored(store, v) + Delivered(replies, v)
    {
      StoredUpdate(store, k, Kept(p.1), v);
      StoredUpdate(store, k, List(p.1), v);
    }
  }

  // What serving a client that waits with w does to the database, and what the client is sent.
  function AfterServing(store: seq<Object>, key: Key, w: Wait): (r: seq<Object>)
    requires key < |store| && store[key].List? && store[key].elems != []
    requires w.target.Some? ==> w.target.value < |store|
    ensures |r| == |store|
  {
    var p := PopFrom(store[key].elems, w.from);
    var popped := store[key := List(p.1)];
    if w.target.None? then popped
    else
      var t := w.target.value;
      if popped[t].OtherType? then store
      else popped[t := List(PushTo(if popped[t].List? then popped[t].elems else [], p.0, Head))]
  }

  function ReplyTo(store: seq<Object>, key: Key, c: Client, w: Wait): Reply
    requires key < |store| && store[key].List? && store[key].elems != []
    requires w.target.Some? ==> w.target.value < |store|
  {
    var v := PopFrom(store[key].elems, w.from).0;
    if w.target.None? then Popped(c, key, v)
    else if store[w.target.value].OtherType? then WrongType(c)
    else Moved(c, key, w.target.value, v)
  }

  // r is what a client that waits so is sent, and after is the database then.
  ghost predicate Sends(store: seq<Object>, key: Key, c: Client, w: Wait, after: seq<Object>, r: Reply)
    requires key < |store| == |after| && store[key].List? && store[key].elems != []
    requires w.target.Some? ==> w.target.value < |store|
  {
    var elems := store[key].elems;
    var last := |elems| - 1;
    var v, rest := if w.from.Head? then elems[0] else elems[last], if w.from.Head? then elems[1..] else elems[..last];
    if w.target.None? then r == Popped(c, key, v) && after == store[key := List(rest)]
    else
      var t := w.target.value;
      if store[t].OtherType? then r == WrongType(c) && after == store
      else
        && r == Moved(c, key, t, v)
        && (t != key ==>
              after[key] == List(rest) && after[t] == List([v] + if store[t].List? then store[t].elems else []))
        && (t == key ==> after[key] == List([v] + rest))
        && forall k: Key | k < |store| && k != key && k != t :: after[k] == store[k]
  }

  /** The element is sent, put back, or moved to the head of the target; the reply carries it. */
  lemma ServingSends(store: seq<Object>, key: Key, c: Client, w: Wait)
    requires key < |store| && store[key].List? && store[key].elems != []
    requires w.target.Some? ==> w.target.value < |store|
    ensures Sends(store, key, c, w, AfterServing(store, key, w), ReplyTo(store, key, c, w))
  {
  }

  // Popped from one list and pushed to another, or to the same; r is any reply that hands nothing out.
  lemma MoveConserves(store: seq<Object>, replies: seq<Reply>, k: Key, from: End, target: Key, r: Reply)
    requires k < |store| && target < |store| && store[k].List? && store[k].elems != [] && !store[target].OtherType?
    requires !r.Popped?
    ensures var p := PopFrom(store[k].elems, from);
      var popped := store[k := List(p.1)];
      var at := if popped[target].List? then popped[target].elems else [];
      Conserved(store, replies, popped[target := List(PushTo(at, p.0, Head))], replies + [r])
  {
    var p := PopFrom(store[k].elems, from);
    var popped := store[k := List(p.1)];
    var at := if popped[target].List? then popped[target].elems else [];
    assert (replies + [r])[..|replies|] == replies;
    forall v: Elem
      ensures Stored(popped[target := List(PushTo(at, p.0, Head))], v) + Delivered(replies + [r], v)
        == Stored(store, v) + Delivered(replies, v)
    {
      StoredUpdate(store, k, List(p.1), v);
      StoredUpdate(popped, target, List(PushTo(at, p.0, Head)), v);
    }
  }

  function Receivers(replies: seq<Reply>): (r: seq<Client>)
    ensures |r| == |replies| && forall i | 0 <= i < |r| :: r[i] == replies[i].client
  {
    seq(|replies|, i requires 0 <= i < |replies| => replies[i].client)
  }

  function PopFrom(elems: seq<Elem>, from: End): (r: (Elem, seq<Elem>))
    requires elems != []
    ensures multiset(r.1) + multiset{r.0} == multiset(elems) && PushTo(r.1, r.0, from) == elems
  {
    if from.Head? then
      assert elems == [elems[0]] + elems[1..];
      (elems[0], elems[1..])
    else
      assert elems == elems[..|elems| - 1] + [elems[|elems| - 1]];
      (elems[|elems| - 1], elems[..|elems| - 1])
  }

  function PushTo(elems: seq<Elem>, v: Elem, to: End): (r: seq<Elem>)
    ensures multiset(r) == multiset(elems) + multiset{v}
  {
    if to.Head? then [v] + elems else elems + [v]
  }

  /******* Nobody waits for what is there *******/

  ghost predicate NoListWaiter(queue: seq<Client>, waiting: map<Client, Wait>) {
    forall c | c in queue && c in waiting :: !waiting[c].isList
  }

  // A list with somebody waiting for it is marked as ready, except perhaps the one being served.
  ghost predicate NoneMissed(store: seq<Object>, blocking: seq<seq<Client>>, waiting: map<Client, Wait>,
                             ready: set<Key>, busy: set<Key>)
    requires |store| == |blocking|
  {
    forall k: Key | k < |store| && k !in busy && k !in ready && store[k].List? :: NoListWaiter(blocking[k], waiting)
  }

  /******* Blocking and unblocking *******/

  function Removed(blocking: seq<seq<Client>>, c: Client): (r: seq<seq<Client>>)
    ensures |r| == |blocking| && forall k: Key | k < |blocking| :: r[k] == Without(blocking[k], c)
  {
    seq(|blocking|, k requires 0 <= k < |blocking| => Without(blocking[k], c))
  }

  lemma UnblockedIndex(blocking: seq<seq<Client>>, waiting: map<Client, Wait>, c: Client)
    requires IndexOk(blocking, waiting)
    ensures IndexOk(Removed(blocking, c), waiting - {c})
  {
    forall k: Key | k < |blocking| ensures Mirrors(Removed(blocking, c)[k], waiting - {c}, k) {
      assert Mirrors(blocking[k], waiting, k);
      WithoutDistinct(blocking[k], c);
    }
  }

  lemma UnblockedNoneMissed(store: seq<Object>, blocking: seq<seq<Client>>, waiting: map<Client, Wait>, ready: set<Key>,
                            busy: set<Key>, c: Client)
    requires |store| == |blocking| && NoneMissed(store, blocking, waiting, ready, busy)
    ensures NoneMissed(store, Removed(blocking, c), waiting - {c}, ready, busy)
  {
  }

  // A key that changes but is no new list, or is ready, or has nobody waiting, is not missed.
  lemma ChangedNoneMissed(store: seq<Object>, blocking: seq<seq<Client>>, waiting: map<Client, Wait>,
                          ready: set<Key>, busy: set<Key>, t: Key, o: Object, ready': set<Key>)
    requires |store| == |blocking| && t < |store| && NoneMissed(store, blocking, waiting, ready, busy)
    requires ready <= ready'
    requires store[t].List? || t in busy || t in ready' || blocking[t] == [] || !o.List?
    ensures NoneMissed(store[t := o], blocking, waiting, ready', busy)
  {
  }

  // A key that changes is missed exactly when it becomes a list that somebody waits for and nobody signalled.
  lemma ChangedMissedExactly(store: seq<Object>, blocking: seq<seq<Client>>, waiting: map<Client, Wait>,
                             ready: set<Key>, busy: set<Key>, t: Key, o: Object)
    requires |store| == |blocking| && t < |store| && NoneMissed(store, blocking, waiting, ready, busy)
    ensures NoneMissed(store[t := o], blocking, waiting, ready, busy - {t})
       <==> !(o.List? && t !in ready && !NoListWaiter(blocking[t], waiting))
    ensures NoneMissed(store[t := o], blocking, waiting, ready, busy + {t})
  {
    var now := store[t := o];
    assert now[t] == o && forall k: Key | k < |store| && k != t :: now[k] == store[k];
  }

  function PushAll(at: seq<Elem>, elems: seq<Elem>, to: End): seq<Elem>
    decreases |elems|
  {
    if elems == [] then at else PushAll(PushTo(at, elems[0], to), elems[1..], to)
  }

  function Reversed(elems: seq<Elem>): (r: seq<Elem>)
    ensures |r| == |elems| && forall i | 0 <= i < |elems| :: r[i] == elems[|elems| - 1 - i]
  {
    seq(|elems|, i requires 0 <= i < |elems| => elems[|elems| - 1 - i])
  }

  /** RPUSH appends the elements in their order; LPUSH puts each before the one pushed last. */
  lemma {:induction false} PushAllOrders(at: seq<Elem>, elems: seq<Elem>, to: End)
    ensures PushAll(at, elems, to) == if to.Tail? then at + elems else Reversed(elems) + at
    decreases |elems|
  {
    if elems != [] {
      PushAllOrders(PushTo(at, elems[0], to), elems[1..], to);
      assert elems == [elems[0]] + elems[1..] && Reversed(elems) == Reversed(elems[1..]) + [elems[0]];
    }
  }

  // Nobody is missed by blocking on keys that do not exist.
  lemma BlockedNoneMissed(store: seq<Object>, blocking: seq<seq<Client>>, waiting: map<Client, Wait>, ready: set<Key>,
                          busy: set<Key>, c: Client, w: Wait)
    requires |store| == |blocking| && IndexOk(blocking, waiting) && NoneMissed(store, blocking, waiting, ready, busy)
    requires c !in waiting
    requires forall k | k in w.keys :: k < |store| && store[k].Missing?
    ensures NoneMissed(store, Added(blocking, c, w.keys), waiting[c := w], ready, busy)
  {
    forall k: Key | k < |store| && k !in busy && k !in ready && store[k].List?
      ensures NoListWaiter(Added(blocking, c, w.keys)[k], waiting[c := w])
    {
      assert Mirrors(blocking[k], waiting, k);
    }
  }

  lemma {:induction false} DistinctParts<T>(a: seq<T>, x: T)
    requires Distinct([x] + a)
    ensures Distinct(a + [x])
  {
    assert ([x] + a)[1..] == a;
    SnocDistinct(a, x);
  }

  lemma RotatedIndex(blocking: seq<seq<Client>>, waiting: map<Client, Wait>, k: Key)
    requires IndexOk(blocking, waiting) && k < |blocking| && blocking[k] != []
    ensures IndexOk(blocking[k := blocking[k][1..] + [blocking[k][0]]], waiting)
  {
    var q := blocking[k];
    assert Mirrors(q, waiting, k);
    assert q == [q[0]] + q[1..];
    DistinctParts(q[1..], q[0]);
    assert Mirrors(q[1..] + [q[0]], waiting, k);
  }

  function KeySet(keys: seq<Key>): set<Key> { set k | k in keys }

  function Added(blocking: seq<seq<Client>>, c: Client, keys: set<Key>): (r: seq<seq<Client>>)
    ensures |r| == |blocking| && forall k: Key | k < |blocking| ::
      r[k] == if k in keys then blocking[k] + [c] else blocking[k]
  {
    seq(|blocking|, k requires 0 <= k < |blocking| => if k in keys then blocking[k] + [c] else blocking[k])
  }

  lemma BlockedIndex(blocking: seq<seq<Client>>, waiting: map<Client, Wait>, c: Client, w: Wait)
    requires IndexOk(blocking, waiting) && c !in waiting && WaitOk(|blocking|, w)
    ensures IndexOk(Added(blocking, c, w.keys), waiting[c := w])
  {
    forall k: Key | k < |blocking| ensures Mirrors(Added(blocking, c, w.keys)[k], waiting[c := w], k) {
      assert Mirrors(blocking[k], waiting, k);
      if k in w.keys {
        SnocDistinct(blocking[k], c);
      }
    }
  }
}

/** Blocking on keys, signalling them as ready, and serving whoever waits. */
module BlockedClients {
  import opened Options
  import opened WaitingLists

  // The client is taken out of the queues of the given keys.
  method LeaveQueues(blocking: seq<seq<Client>>, keys: set<Key>, c: Client) returns (r: seq<seq<Client>>)
    requires forall k | k in keys :: k < |blocking|
    ensures |r| == |blocking|
    ensures forall k: Key | k < |r| :: r[k] == if k in keys then Without(blocking[k], c) else blocking[k]
  {
    var left := keys;
    r := blocking;
    while left != {}
      invariant left <= keys && |r| == |blocking|
      invariant forall k: Key | k < |r| ::
        r[k] == if k in keys && k !in left then Without(blocking[k], c) else blocking[k]
      decreases left
    {
      var k :| k in left;
      r := r[k := Without(r[k], c)];
      left := left - {k};
    }
  }

  // The client is put at the end of the queues of the given keys, once even where a key is repeated.
  method JoinQueues(blocking: seq<seq<Client>>, keys: seq<Key>, c: Client) returns (r: seq<seq<Client>>, mine: set<Key>)
    requires forall i | 0 <= i < |keys| :: keys[i] < |blocking|
    ensures mine == KeySet(keys) && r == Added(blocking, c, KeySet(keys))
  {
    mine := {};
    r := blocking;
    for j := 0 to |keys|
      invariant mine == KeySet(keys[..j]) && |r| == |blocking|
      invariant forall k: Key | k < |r| :: r[k] == if k in mine then blocking[k] + [c] else blocking[k]
    {
      assert keys[..j + 1] == keys[..j] + [keys[j]];
      if keys[j] !in mine {
        mine := mine + {keys[j]};
        r := r[keys[j] := r[keys[j]] + [c]];
      }
    }
    assert keys[..|keys|] == keys;
  }

  lemma LeavingIsRemoving(blocking: seq<seq<Client>>, waiting: map<Client, Wait>, c: Client, r: seq<seq<Client>>)
    requires IndexOk(blocking, waiting) && c in waiting && |r| == |blocking|
    requires forall k: Key | k < |r| :: r[k] == if k in waiting[c].keys then Without(blocking[k], c) else blocking[k]
    ensures r == Removed(blocking, c)
  {
    forall k: Key | k < |r| ensures r[k] == Without(blocking[k], c) {
      assert Mirrors(blocking[k], waiting, k);
    }
  }

  // The first of the keys that exists holds a list.
  ghost predicate FirstList(store: seq<Object>, keys: seq<Key>, j: nat)
    requires forall i | 0 <= i < |keys| :: keys[i] < |store|
  {
    && j < |keys| && store[keys[j]].List? && store[keys[j]].elems != []
    && forall i | 0 <= i < j :: store[keys[i]].Missing?
  }

  // The server at an earlier moment.
  datatype Before = Before(store: seq<Object>, blocking: seq<seq<Client>>, waiting: map<Client, Wait>,
                           ready: seq<Key>, pending: seq<Key>, replies: seq<Reply>, forgotten: set<Key>)

  class Server {
    var store: seq<Object>                // the keys of one database
    var blocking: seq<seq<Client>>        // blocking_keys: for each key the clients waiting, first come first
    var waiting: map<Client, Wait>        // the blocked clients
    var ready: seq<Key>                   // the ready_keys list
    var isReady: set<Key>                 // the ready_keys dictionary
    var unblocked: seq<Client>            // clients whose input is to be processed again
    ghost var replies: seq<Reply>         // what clients were sent
    ghost var pending: seq<Key>           // ready keys taken off the list, still to be served
    ghost var forgotten: set<Key>         // lists that replaced other values while clients waited for them

    ghost predicate Indexed()
      reads this
    {
      |store| == |blocking| && IndexOk(blocking, waiting)
    }

    // No list in the database is empty, except perhaps the one being served.
    ghost predicate Filled(busy: set<Key>)
      reads this
    {
      forall k: Key | k < |store| && k !in busy && store[k].List? :: store[k].elems != []
    }

    ghost predicate ReadyOk()
      reads this
    {
      && (forall k :: k in isReady <==> k in ready || k in pending)
      && Distinct(pending + ready) && (forall k | k in isReady :: k < |store|)
    }

    ghost predicate Sound(busy: set<Key>)
      reads this
    {
      Indexed() && ReadyOk() && Filled(busy) && NoneMissed(store, blocking, waiting, isReady, busy + forgotten)
    }

    // Between commands.
    ghost predicate Quiet()
      reads this
    {
      Sound({}) && pending == []
    }

    // The list at k is there, somebody waits for one, and the key is not marked.
    ghost predicate Missed(k: Key)
      reads this
      requires |store| == |blocking|
    {
      k < |store| && store[k].List? && k !in isReady && !NoListWaiter(blocking[k], waiting)
    }

    ghost predicate Valid()
      reads this
    {
      Quiet() && forall k :: k in forgotten ==> Missed(k)
    }

    // What nobody waits for any more is not forgotten.
    ghost method Recall()
      requires Quiet()
      modifies this`forgotten
      ensures Valid() && forall k :: k in forgotten <==> k in old(forgotten) && Missed(k)
    {
      forgotten := set k | k in forgotten && Missed(k);
    }

    constructor (keys: nat)
      ensures Valid() && |store| == keys && (forall k | 0 <= k < keys :: store[k].Missing?)
      ensures waiting == map[] && ready == [] && isReady == {} && replies == [] && forgotten == {}
    {
      store := seq(keys, _ => Missing);
      blocking := seq(keys, _ => []);
      waiting, ready, isReady, unblocked := map[], [], {}, [];
      replies, pending, forgotten := [], [], {};
    }

    // The client leaves the queue of every key it waits for.
    method UnblockClientWaitingData(c: Client)
      requires Indexed() && c in waiting
      modifies this`blocking
      ensures blocking == Removed(old(blocking), c)
    {
      assert WaitOk(|blocking|, waiting[c]);
      var r := LeaveQueues(blocking, waiting[c].keys, c);
      LeavingIsRemoving(blocking, waiting, c, r);
      blocking := r;
    }

    method UnblockClient(c: Client)
      requires Indexed() && c in waiting
      modifies this`blocking, this`waiting, this`unblocked
      ensures blocking == Removed(old(blocking), c) && waiting == old(waiting) - {c} && Indexed()
      ensures unblocked == if c in old(unblocked) then old(unblocked) else old(unblocked) + [c]
    {
      UnblockedIndex(blocking, waiting, c);
      UnblockClientWaitingData(c);
      waiting := waiting - {c};
      if c !in unblocked {
        unblocked := unblocked + [c];
      }
    }

    method SignalKeyAsReady(k: Key)
      requires Indexed() && ReadyOk() && k < |store|
      modifies this`ready, this`isReady
      ensures ReadyOk() && old(isReady) <= isReady && (blocking[k] == [] || k in isReady)
      ensures if old(blocking)[k] == [] || k in old(isReady) then ready == old(ready) && isReady == old(isReady)
              else ready == old(ready) + [k] && isReady == old(isReady) + {k}
    {
      if blocking[k] == [] {
        return;
      }
      if k in isReady {
        return;
      }
      SnocDistinct(pending + ready, k);
      assert (pending + ready) + [k] == pending + (ready + [k]);
      ready := ready + [k];
      isReady := isReady + {k};
    }

    /**
     One receiver: an element is popped for it, it is unblocked, and the element is sent to it,
     moved to its target, or put back when the target is no list.
     */
    method ServeReceiver(key: Key, c: Client)
      requires Sound({key}) && key < |store| && store[key].List? && store[key].elems != []
      requires c in waiting && waiting[c].isList
      modifies this
      ensures Sound({key}) && |store| == |old(store)| && store[key].List?
      ensures pending == old(pending) && forgotten == old(forgotten)
      ensures waiting == old(waiting) - {c} && blocking == Removed(old(blocking), c)
      ensures Conserved(old(store), old(replies), store, replies)
      ensures WaitOk(|old(blocking)|, old(waiting)[c]) && store == AfterServing(old(store), key, old(waiting)[c])
      ensures replies == old(replies) + [ReplyTo(old(store), key, c, old(waiting)[c])]
      ensures Sends(old(store), key, c, old(waiting)[c], store, replies[|replies| - 1])
    {
      var w := waiting[c];
      assert WaitOk(|blocking|, w);
      ghost var s, rs := store, replies;
      ServingSends(store, key, c, w);
      var v := PopFor(key, c);
      if w.target.None? {
        PopDelivers(s, rs, key, w.from, c);
        replies := replies + [Popped(c, key, v)];
      } else {
        MoveToTarget(s, key, c, w, v);
      }
    }

    // The same, seen from the queue: the client is gone from it and has its reply.
    method ServeOne(key: Key, c: Client)
      requires Sound({key}) && key < |store| && store[key].List? && store[key].elems != []
      requires c in waiting && waiting[c].isList
      modifies this
      ensures Sound({key}) && |store| == |old(store)| && store[key].List?
      ensures pending == old(pending) && forgotten == old(forgotten)
      ensures waiting == old(waiting) - {c} && blocking == Removed(old(blocking), c)
      ensures Conserved(old(store), old(replies), store, replies)
      ensures Receivers(replies) == Receivers(old(replies)) + [c]
    {
      assert WaitOk(|blocking|, waiting[c]);
      ReceiversSnoc(replies, ReplyTo(store, key, c, waiting[c]));
      ServeReceiver(key, c);
    }

    // The pop side, after which the client no longer waits.
    method PopFor(key: Key, c: Client) returns (v: Elem)
      requires Sound({key}) && key < |store| && store[key].List? && store[key].elems != [] && c in waiting
      modifies this`store, this`blocking, this`waiting, this`unblocked
      ensures Sound({key}) && v == PopFrom(old(store)[key].elems, old(waiting)[c].from).0
      ensures store == old(store)[key := List(PopFrom(old(store)[key].elems, old(waiting)[c].from).1)]
      ensures waiting == old(waiting) - {c} && blocking == Removed(old(blocking), c)
    {
      var popped := PopFrom(store[key].elems, waiting[c].from);
      ChangedNoneMissed(store, blocking, waiting, isReady, {key} + forgotten, key, List(popped.1), isReady);
      UnblockedNoneMissed(store[key := List(popped.1)], blocking, waiting, isReady, {key} + forgotten, c);
      store := store[key := List(popped.1)];
      UnblockClient(c);
      return popped.0;
    }

    // The push side; s is the database before the element was popped.
    method MoveToTarget(ghost s: seq<Object>, key: Key, c: Client, w: Wait, v: Elem)
      requires Sound({key}) && key < |store| && w.target.Some? && w.target.value < |store|
      requires |s| == |store| && s[key].List? && s[key].elems != []
      requires v == PopFrom(s[key].elems, w.from).0 && store == s[key := List(PopFrom(s[key].elems, w.from).1)]
      modifies this`store, this`ready, this`isReady, this`replies
      ensures Sound({key}) && |store| == |old(store)| && store[key].List?
      ensures Conserved(s, old(replies), store, replies)
      ensures store == AfterServing(s, key, w) && replies == old(replies) + [ReplyTo(s, key, c, w)]
    {
      var t := w.target.value;
      if store[t].OtherType? {
        ghost var r := WrongType(c);
        assert (replies + [r])[..|replies|] == replies;
        store := store[key := List(PushTo(store[key].elems, v, w.from))];
        assert store == s;
        replies := replies + [r];
        return;
      }
      MoveConserves(s, replies, key, w.from, t, Moved(c, key, t, v));
      PushTarget(key, t, v);
      replies := replies + [Moved(c, key, t, v)];
    }

    // The element goes to the head of the target, which wakes clients when it is a new list.
    method PushTarget(ghost key: Key, t: Key, v: Elem)
      requires Sound({key}) && t < |store| && !store[t].OtherType?
      modifies this`store, this`ready, this`isReady
      ensures Sound({key})
      ensures store == old(store)[t := List(PushTo(if old(store)[t].List? then old(store)[t].elems else [], v, Head))]
    {
      var at := if store[t].List? then store[t].elems else [];
      ghost var before := isReady;
      if store[t].Missing? {
        SignalKeyAsReady(t);
      }
      ChangedNoneMissed(store, blocking, waiting, before, {key} + forgotten, t, List(PushTo(at, v, Head)), isReady);
      store := store[t := List(PushTo(at, v, Head))];
    }

    // Serving `key` has looked at `seen` clients since the server was as `was` says.
    ghost predicate Serving(key: Key, was: Before, seen: nat, served: seq<Client>)
      reads this
    {
      && Sound({key}) && key < |store| == |was.store| == |was.blocking| && store[key].List?
      && pending == was.pending && forgotten == was.forgotten
      && Conserved(was.store, was.replies, store, replies)
      && Progress(was.blocking[key], was.waiting, seen, blocking[key], waiting, served)
      && Receivers(replies) == Receivers(was.replies) + served
      && waiting.Keys <= was.waiting.Keys && (ready == was.ready || waiting.Keys < was.waiting.Keys)
    }

    // The client at the head of the queue; `stop` says that the list had run out.
    method ServeNext(key: Key, ghost was: Before, ghost seen: nat, ghost served: seq<Client>)
      returns (stop: bool, ghost served': seq<Client>)
      requires Serving(key, was, seen, served) && seen < |was.blocking[key]|
      modifies this
      ensures Serving(key, was, if stop then seen else seen + 1, served')
      ensures stop ==> store[key].elems == []
    {
      ProgressOfHead(blocking, waiting, key, was.blocking[key], was.waiting, seen, served);
      var receiver := blocking[key][0];
      if !waiting[receiver].isList {
        RotateHeadToTail(key);
        return false, served;
      }
      if store[key].elems == [] {
        return true, served;
      }
      served' := ServeHead(key, was, seen, served, receiver);
      return false, served';
    }

    method ServeHead(key: Key, ghost was: Before, ghost seen: nat, ghost served: seq<Client>, c: Client)
      returns (ghost served': seq<Client>)
      requires Serving(key, was, seen, served) && store[key].elems != [] && c in waiting && waiting[c].isList
      requires Progress(was.blocking[key], was.waiting, seen + 1,
                        Without(blocking[key], c), waiting - {c}, served + [c])
      modifies this
      ensures Serving(key, was, seen + 1, served')
    {
      served' := served + [c];
      ghost var s, rs := store, replies;
      ghost var queue, clients := blocking[key], waiting;
      assert (Receivers(was.replies) + served) + [c] == Receivers(was.replies) + served';
      ServeOne(key, c);
      assert blocking[key] == Without(queue, c) && waiting == clients - {c};
      ConservedOn(was.store, was.replies, s, rs, store, replies);
      FewerWait(clients, was.waiting, c);
    }

    /**
     serveClientsBlockedOnListKey: the first `seen` clients of the queue are looked at in order; those
     waiting for lists are served in that order, the others go to the end. Either the whole queue was
     seen or the list has run out.
     */
    method ServeClientsBlockedOnListKey(key: Key) returns (ghost seen: nat, ghost served: seq<Client>)
      requires Sound({key}) && key < |store| && store[key].List?
      modifies this
      ensures Sound({}) && |store| == |old(store)| && pending == old(pending) && forgotten == old(forgotten)
      ensures Conserved(old(store), old(replies), store, replies)
      ensures Progress(old(blocking)[key], old(waiting), seen, blocking[key], waiting, served)
      ensures seen == |old(blocking)[key]| || store[key].Missing?
      ensures Receivers(replies) == Receivers(old(replies)) + served
      ensures waiting.Keys <= old(waiting).Keys && (ready == old(ready) || waiting.Keys < old(waiting).Keys)
    {
      ghost var was := Before(store, blocking, waiting, ready, pending, replies, forgotten);
      seen, served := 0, [];
      ProgressStarts(blocking[key], waiting);
      assert Receivers(replies) + [] == Receivers(replies);
      var n := |blocking[key]|;
      var stop := false;
      while n > 0 && !stop
        invariant Serving(key, was, seen, served) && seen + n == |was.blocking[key]|
        invariant stop ==> store[key].elems == []
        decreases n, if stop then 0 else 1
      {
        stop, served := ServeNext(key, was, seen, served);
        if !stop {
          n := n - 1;
          seen := seen + 1;
        }
      }
      DropIfEmpty(key, was.blocking[key], was.waiting, seen, served);
    }

    // An empty list is deleted; a list that is not has nobody left waiting for it.
    method DropIfEmpty(key: Key, ghost queue: seq<Client>, ghost clients: map<Client, Wait>, ghost seen: nat,
                       ghost served: seq<Client>)
      requires Sound({key}) && key < |store| && store[key].List?
      requires Progress(queue, clients, seen, blocking[key], waiting, served)
      requires seen == |queue| || store[key].elems == []
      modifies this`store
      ensures Sound({}) && |store| == |old(store)| && Conserved(old(store), replies, store, replies)
      ensures seen == |queue| || store[key].Missing?
    {
      if seen == |queue| {
        ProgressEnds(queue, clients, blocking[key], waiting, served);
      }
      if store[key].elems == [] {
        forall v: Elem ensures Stored(store[key := Missing], v) == Stored(store, v) {
          StoredUpdate(store, key, Missing, v);
        }
        store := store[key := Missing];
      }
    }

    method RotateHeadToTail(key: Key)
      requires Sound({key}) && key < |store| && blocking[key] != []
      modifies this`blocking
      ensures Sound({key}) && blocking == old(blocking)[key := old(blocking)[key][1..] + [old(blocking)[key][0]]]
    {
      RotatedIndex(blocking, waiting, key);
      blocking := blocking[key := blocking[key][1..] + [blocking[key][0]]];
    }

    // The next key of the list taken off is no longer marked as ready while it is being served.
    method TakeReady(key: Key)
      requires Sound({}) && pending != [] && key == pending[0]
      modifies this`isReady, this`pending
      ensures key < |store| && pending == old(pending)[1..] && Sound({key})
    {
      assert key in isReady;
      assert (pending + ready)[1..] == pending[1..] + ready;
      isReady := isReady - {key};
      pending := pending[1..];
    }

    /**
     handleClientsBlockedOnKeys: serves keys until none is ready, including those that become ready by
     serving others. It ends because a key becomes ready only when a client has been unblocked.
     */
    method HandleClientsBlockedOnKeys()
      requires Valid()
      modifies this
      ensures Valid() && ready == [] && |store| == |old(store)|
      ensures Conserved(old(store), old(replies), store, replies)
      ensures forall k: Key | k < |store| && store[k].List? :: !NoListWaiter(blocking[k], waiting) <==> k in forgotten
      ensures forall k :: k in forgotten <==> k in old(forgotten) && Missed(k)
      ensures old(ready) == [] ==> store == old(store) && waiting == old(waiting) && blocking == old(blocking)
    {
      while ready != []
        invariant Quiet() && |store| == |old(store)| && Conserved(old(store), old(replies), store, replies)
        invariant forgotten == old(forgotten)
        invariant old(ready) == [] ==>
          ready == [] && store == old(store) && waiting == old(waiting) && blocking == old(blocking)
        decreases waiting.Keys, |ready|
      {
        ghost var s, rs := store, replies;
        ServeReady();
        ConservedOn(old(store), old(replies), s, rs, store, replies);
      }
      Recall();
    }

    // One round: the keys that are ready now. More become ready only when a client has been unblocked.
    method ServeReady()
      requires Quiet()
      modifies this
      ensures Quiet() && |store| == |old(store)| && forgotten == old(forgotten)
      ensures Conserved(old(store), old(replies), store, replies)
      ensures waiting.Keys <= old(waiting).Keys && (ready == [] || waiting.Keys < old(waiting).Keys)
    {
      var l := ready;
      assert [] + ready == ready && ready + [] == ready;
      pending := ready;
      ready := [];
      while l != []
        invariant Sound({}) && pending == l && |store| == |old(store)| && forgotten == old(forgotten)
        invariant Conserved(old(store), old(replies), store, replies)
        invariant waiting.Keys <= old(waiting).Keys && (ready == [] || waiting.Keys < old(waiting).Keys)
        decreases |l|
      {
        ghost var s, rs := store, replies;
        var key := l[0];
        TakeReady(key);
        l := l[1..];
        if store[key].List? {
          ghost var seen, served := ServeClientsBlockedOnListKey(key);
          ConservedOn(old(store), old(replies), s, rs, store, replies);
        }
      }
    }

    method BlockForKeys(c: Client, keys: seq<Key>, isList: bool, target: Option<Key>, from: End)
      requires Indexed() && c !in waiting && keys != [] && (forall i | 0 <= i < |keys| :: keys[i] < |store|)
      requires target.Some? ==> target.value < |store|
      modifies this`blocking, this`waiting
      ensures Indexed()
      ensures waiting == old(waiting)[c := Wait(KeySet(keys), isList, target, from)]
      ensures blocking == Added(old(blocking), c, KeySet(keys))
    {
      var mine;
      var r;
      r, mine := JoinQueues(blocking, keys, c);
      var w := Wait(mine, isList, target, from);
      assert keys[0] in mine;
      BlockedIndex(blocking, waiting, c, w);
      blocking := r;
      waiting := waiting[c := w];
    }

    // A client that times out or goes away.
    method Leave(c: Client)
      requires Valid() && c in waiting
      modifies this
      ensures Valid() && c !in waiting && store == old(store) && replies == old(replies)
      ensures ready == old(ready) && forall k :: k in forgotten <==> k in old(forgotten) && Missed(k)
    {
      UnblockedNoneMissed(store, blocking, waiting, isReady, {} + forgotten, c);
      UnblockClient(c);
      Recall();
    }

    // Elements pushed to a list key one by one, as RPUSH and LPUSH do; a new key may wake clients.
    method Push(key: Key, elems: seq<Elem>, to: End) returns (ok: bool)
      requires Valid() && key < |store| && elems != []
      modifies this
      ensures Valid() && waiting == old(waiting) && blocking == old(blocking) && replies == old(replies)
      ensures forgotten == old(forgotten)
      ensures ok <==> !old(store)[key].OtherType?
      ensures !ok ==> store == old(store)
      ensures ok ==>
        var at := if old(store)[key].List? then old(store)[key].elems else [];
        && store == old(store)[key := List(PushAll(at, elems, to))]
        && store[key] == List(if to.Tail? then at + elems else Reversed(elems) + at)
    {
      if store[key].OtherType? {
        return false;
      }
      var at := if store[key].List? then store[key].elems else [];
      PushAllOrders(at, elems, to);
      assert forall k | k in forgotten :: Missed(k);
      CreateOrExtend(key, List(PushAll(at, elems, to)));
      return true;
    }

    // A key that is a list, or missing, becomes this list.
    method CreateOrExtend(key: Key, o: Object)
      requires Quiet() && key < |store| && !store[key].OtherType? && o.List? && o.elems != []
      modifies this`store, this`ready, this`isReady
      ensures Quiet() && store == old(store)[key := o]
      ensures forall k | old(Missed(k)) :: Missed(k)
    {
      ghost var was := isReady;
      if store[key].Missing? {
        SignalKeyAsReady(key);
      }
      ChangedNoneMissed(store, blocking, waiting, was, {} + forgotten, key, o, isReady);
      store := store[key := o];
    }

    /**
     genericSetKey: a new key goes through dbAdd, which signals a list, and so a sorted set or a stream; an
     existing one is overwritten without a signal. So the clients waiting for a list are forgotten exactly
     when it replaces a value of another type, somebody waits for it, and the key was not signalled before.
     */
    method SetKey(key: Key, o: Object)
      requires Valid() && key < |store| && !o.Missing? && (o.List? ==> o.elems != [])
      modifies this`store, this`ready, this`isReady, this`forgotten
      ensures Valid() && store == old(store)[key := o] && (o.OtherType? && !o.awaited ==> ready == old(ready))
      ensures forgotten - {key} == old(forgotten) - {key}
      ensures key in forgotten <==> o.List? && key !in isReady && !NoListWaiter(blocking[key], waiting)
      ensures key !in old(forgotten) ==>
        (key in forgotten <==> o.List? && old(store)[key].OtherType? && key !in isReady
                               && !NoListWaiter(blocking[key], waiting))
      ensures if old(store)[key].Missing? && (o.List? || o.awaited)
              then old(isReady) <= isReady <= old(isReady) + {key} && (blocking[key] == [] || key in isReady)
              else ready == old(ready) && isReady == old(isReady)
    {
      if store[key].Missing? && (o.List? || o.awaited) {
        SignalKeyAsReady(key);
      }
      ChangedMissedExactly(store, blocking, waiting, isReady, {} + forgotten, key, o);
      if o.List? && key !in isReady && !NoListWaiter(blocking[key], waiting) {
        forgotten := forgotten + {key};
      } else {
        forgotten := forgotten - {key};
      }
      store := store[key := o];
    }

    method Delete(key: Key)
      requires Valid() && key < |store|
      modifies this`store, this`forgotten
      ensures Valid() && store == old(store)[key := Missing] && forgotten == old(forgotten) - {key}
    {
      ChangedMissedExactly(store, blocking, waiting, isReady, {} + forgotten, key, Missing);
      store := store[key := Missing];
      forgotten := forgotten - {key};
    }

    // SORT ... STORE: what was sorted replaces whatever is there; an empty result deletes it.
    method SortStore(key: Key, sorted: seq<Elem>)
      requires Valid() && key < |store|
      modifies this`store, this`ready, this`isReady, this`forgotten
      ensures Valid() && store == old(store)[key := Kept(sorted)] && forgotten - {key} == old(forgotten) - {key}
      ensures key in forgotten <==> sorted != [] && key !in isReady && !NoListWaiter(blocking[key], waiting)
      ensures !old(store)[key].Missing? ==> ready == old(ready) && isReady == old(isReady)
    {
      if sorted == [] {
        Delete(key);
      } else {
        SetKey(key, List(sorted));
      }
    }

    /**
     BLPOP and BRPOP outside a transaction: the first key that holds a list gives an element at once;
     a key of another type is an error; otherwise the client blocks on all keys.
     */
    method BlockingPop(c: Client, keys: seq<Key>, from: End) returns (ok: bool)
      requires Valid() && c !in waiting && keys != [] && forall i | 0 <= i < |keys| :: keys[i] < |store|
      modifies this
      ensures Valid() && Conserved(old(store), old(replies), store, replies)
      ensures forall k :: k in forgotten <==> k in old(forgotten) && Missed(k)
      ensures c in waiting <==> forall i | 0 <= i < |keys| :: old(store)[keys[i]].Missing?
      ensures c in waiting ==>
        ok && store == old(store) && waiting == old(waiting)[c := Wait(KeySet(keys), true, None, from)]
      ensures c in waiting ==> blocking == Added(old(blocking), c, KeySet(keys))
      ensures ready == old(ready) && isReady == old(isReady)
      ensures c !in waiting ==> waiting == old(waiting) && blocking == old(blocking)
      ensures !ok ==> store == old(store) && replies == old(replies)
      ensures ok && c !in waiting ==> exists j: nat ::
        && FirstList(old(store), keys, j)
        && replies == old(replies) + [Popped(c, keys[j], PopFrom(old(store)[keys[j]].elems, from).0)]
    {
      for j := 0 to |keys|
        invariant Valid() && forall i | 0 <= i < j :: store[keys[i]].Missing?
        invariant store == old(store) && waiting == old(waiting) && blocking == old(blocking) && replies == old(replies)
        invariant ready == old(ready) && isReady == old(isReady) && forgotten == old(forgotten)
      {
        match store[keys[j]] {
          case OtherType(_) => return false;
          case List(elems) =>
            assert FirstList(store, keys, j);
            PopNow(c, keys[j], from);
            return true;
          case Missing =>
        }
      }
      ghost var w := Wait(KeySet(keys), true, None, from);
      BlockedNoneMissed(store, blocking, waiting, isReady, {} + forgotten, c, w);
      BlockForKeys(c, keys, true, None, from);
      return true;
    }

    method PopNow(c: Client, key: Key, from: End)
      requires Valid() && key < |store| && store[key].List?
      modifies this
      ensures Valid() && Conserved(old(store), old(replies), store, replies)
      ensures forall k :: k in forgotten <==> k in old(forgotten) && Missed(k)
      ensures waiting == old(waiting) && blocking == old(blocking) && ready == old(ready) && isReady == old(isReady)
      ensures replies == old(replies) + [Popped(c, key, PopFrom(old(store)[key].elems, from).0)]
      ensures store == old(store)[key := Kept(PopFrom(old(store)[key].elems, from).1)]
    {
      var p := PopFrom(store[key].elems, from);
      PopAndDropConserves(store, replies, key, from, c);
      var o := Kept(p.1);
      ChangedNoneMissed(store, blocking, waiting, isReady, {} + forgotten, key, o, isReady);
      store := store[key := o];
      replies := replies + [Popped(c, key, p.0)];
      Recall();
    }
  }

  /**
   It does happen: a client waits for a key, the key is set to a string, and a sorted list replaces the string.
   Serving the blocked clients then leaves the client waiting for the list that is there.
   */
  method OverwriteForgetsWaiter(c: Client, e: Elem) returns (s: Server)
    ensures fresh(s) && s.Valid() && s.ready == [] && |s.store| == 1 && |s.blocking| == 1
    ensures s.store[0] == List([e]) && c in s.waiting && s.waiting[c].isList && c in s.blocking[0]
  {
    s := new Server(1);
    var _ := s.BlockingPop(c, [0], Head);
    assert 0 in KeySet([0]);
    s.SetKey(0, OtherType(false));
    s.SortStore(0, [e]);
    s.HandleClientsBlockedOnKeys();
  }
}
