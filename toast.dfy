/** The toast queue of the Next.js front end (src/lib/toast.ts): a module-level list of toasts,
    an id counter and a set of listeners, all updated in place. The store is a class; each
    listener is named by an id (JavaScript compares the functions by reference), and what the
    listeners are called with is recorded in `delivered`. The 4-second `setTimeout` is a
    pending timer per toast; `Expire` is its callback firing. */
module Toast {
  import opened Common

  datatype ToastType = Success | Error | Info

  /** A toast; `kind` is the source's `type`. */
  datatype Toast = Toast(id: nat, message: string, kind: ToastType)

  /** A listener function, by identity. */
  type ListenerId = nat

  /** One call `fn([...toasts])`. */
  datatype Delivery = Delivery(listener: ListenerId, toasts: seq<Toast>)

  /** How long a toast stays, in milliseconds. */
  const ToastLifetimeMs: nat := 4000

  /** The `type` argument, which defaults to 'info'. */
  function KindOrDefault(kind: Option<ToastType>): (r: ToastType)
    ensures kind.None? ==> r == Info
    ensures kind.Some? ==> r == kind.value
  {
    if kind.Some? then kind.value else Info
  }

  predicate IdsIncreasing(ts: seq<Toast>)
  {
    forall i, j :: 0 <= i < j < |ts| ==> ts[i].id < ts[j].id
  }

  predicate NoDuplicates<T(==)>(s: seq<T>)
  {
    forall i, j :: 0 <= i < j < |s| ==> s[i] != s[j]
  }

  /** `toasts.filter((t) => t.id !== id)` */
  function Without(ts: seq<Toast>, id: nat): (r: seq<Toast>)
    ensures forall t :: t in r <==> t in ts && t.id != id
    ensures |r| <= |ts|
  {
    if ts == [] then []
    else if ts[0].id == id then Without(ts[1..], id)
    else [ts[0]] + Without(ts[1..], id)
  }

  /** Filtering keeps the ids increasing, and the first id left is no smaller than before. */
  lemma {:induction false} WithoutKeepsOrder(ts: seq<Toast>, id: nat)
    requires IdsIncreasing(ts)
    ensures IdsIncreasing(Without(ts, id))
    ensures Without(ts, id) != [] ==> ts != [] && Without(ts, id)[0].id >= ts[0].id
  {
    if ts != [] {
      var tail := ts[1..];
      assert IdsIncreasing(tail) by {
        forall i, j | 0 <= i < j < |tail| ensures tail[i].id < tail[j].id {
          assert tail[i] == ts[i + 1] && tail[j] == ts[j + 1];
        }
      }
      WithoutKeepsOrder(tail, id);
      var rest := Without(tail, id);
      if ts[0].id != id {
        if rest != [] {
          assert ts[0].id < ts[1].id;
        }
        IncreasingCons(ts[0], rest);
      }
    }
  }

  lemma IncreasingCons(t: Toast, rest: seq<Toast>)
    requires IdsIncreasing(rest) && (rest != [] ==> t.id < rest[0].id)
    ensures IdsIncreasing([t] + rest)
  {
    var r := [t] + rest;
    forall i, j | 0 <= i < j < |r| ensures r[i].id < r[j].id {
      assert r[j] == rest[j - 1];
      if i > 0 {
        assert r[i] == rest[i - 1];
      } else if j > 1 {
        assert rest[0].id < rest[j - 1].id;
      }
    }
  }

  /** Notify: each listener, in the order it subscribed, receives the list. */
  function Deliveries(listeners: seq<ListenerId>, ts: seq<Toast>): (r: seq<Delivery>)
    ensures |r| == |listeners|
    ensures forall i :: 0 <= i < |r| ==> r[i] == Delivery(listeners[i], ts)
  {
    if listeners == [] then [] else [Delivery(listeners[0], ts)] + Deliveries(listeners[1..], ts)
  }

  /** `Set.prototype.delete` on an insertion-ordered set. */
  function Removed(s: seq<nat>, x: nat): (r: seq<nat>)
    ensures forall y :: y in r <==> y in s && y != x
    ensures NoDuplicates(s) ==> NoDuplicates(r)
    ensures |r| <= |s|
  {
    if s == [] then []
    else if s[0] == x then Removed(s[1..], x)
    else
      var rest := Removed(s[1..], x);
      assert s[0] !in rest ==> NoDuplicates(s) ==> NoDuplicates([s[0]] + rest);
      [s[0]] + rest
  }

  /** With increasing ids at most one toast has `id`; filtering it away shortens the list by
      one exactly when it was there. */
  lemma {:induction false} WithoutRemovesOne(ts: seq<Toast>, id: nat)
    requires IdsIncreasing(ts)
    ensures (exists t :: t in ts && t.id == id) ==> |Without(ts, id)| == |ts| - 1
    ensures (forall t :: t in ts ==> t.id != id) ==> Without(ts, id) == ts
  {
    if ts != [] {
      WithoutRemovesOne(ts[1..], id);
      if ts[0].id == id {
        assert forall t :: t in ts[1..] ==> t.id != id;
      } else {
        assert forall t :: t in ts && t.id == id ==> t in ts[1..];
      }
    }
  }

  /** Adding a toast whose id is above every id present, and then firing its timer, gives back
      the earlier list. */
  lemma {:induction false} ExpireUndoesAdd(ts: seq<Toast>, t: Toast)
    requires forall u :: u in ts ==> u.id < t.id
    ensures Without(ts + [t], t.id) == ts
  {
    if ts == [] {
    } else {
      assert (ts + [t])[0] == ts[0] && (ts + [t])[1..] == ts[1..] + [t];
      ExpireUndoesAdd(ts[1..], t);
    }
  }

  class ToastStore {
    var toasts: seq<Toast>
    var nextId: nat
    var listeners: seq<ListenerId>
    var pending: seq<nat>
    var delivered: seq<Delivery>

    /** Ids increase along the list and lie below the counter; every toast shown still has its
        timer pending; each timer and each listener is there once. */
    ghost predicate Valid()
      reads this
    {
      IdsIncreasing(toasts)
      && (forall t :: t in toasts ==> t.id < nextId && t.id in pending)
      && (forall p :: p in pending ==> p < nextId)
      && NoDuplicates(pending)
      && NoDuplicates(listeners)
    }

    constructor()
      ensures Valid()
      ensures toasts == [] && nextId == 0 && listeners == [] && pending == [] && delivered == []
    {
      toasts := [];
      nextId := 0;
      listeners := [];
      pending := [];
      delivered := [];
    }

    /** `addToast(message, type)` (toast.ts:21-29): a toast with the next id at the end, a
        notification, and its removal timer. The id is returned so that the model can name the
        timer. */
    method AddToast(message: string, kind: Option<ToastType>) returns (id: nat)
      requires Valid()
      modifies this
      ensures Valid()
      ensures id == old(nextId) && nextId == id + 1
      ensures toasts == old(toasts) + [Toast(id, message, KindOrDefault(kind))]
      ensures forall t :: t in old(toasts) ==> t.id < id
      ensures pending == old(pending) + [id]
      ensures listeners == old(listeners)
      ensures delivered == old(delivered) + Deliveries(listeners, toasts)
    {
      id := nextId;
      nextId := nextId + 1;
      toasts := toasts + [Toast(id, message, KindOrDefault(kind))];
      delivered := delivered + Deliveries(listeners, toasts);
      pending := pending + [id];
    }

    /** The timer of toast `id` fires (toast.ts:25-28): only that toast goes, then a
        notification. */
    method Expire(id: nat)
      requires Valid() && id in pending
      modifies this
      ensures Valid()
      ensures toasts == Without(old(toasts), id)
      ensures pending == Removed(old(pending), id)
      ensures nextId == old(nextId) && listeners == old(listeners)
      ensures delivered == old(delivered) + Deliveries(listeners, toasts)
    {
      WithoutKeepsOrder(toasts, id);
      toasts := Without(toasts, id);
      pending := Removed(pending, id);
      delivered := delivered + Deliveries(listeners, toasts);
    }

    /** `subscribe(fn)` (toast.ts:31-34): `listeners.add(fn)`, which keeps a listener already
        present where it is. */
    method Subscribe(l: ListenerId)
      requires Valid()
      modifies this
      ensures Valid()
      ensures listeners == if l in old(listeners) then old(listeners) else old(listeners) + [l]
      ensures toasts == old(toasts) && nextId == old(nextId) && pending == old(pending) && delivered == old(delivered)
    {
      if l !in listeners {
        listeners := listeners + [l];
      }
    }

    /** The function `subscribe` returns: `listeners.delete(fn)`, true when `fn` was there. */
    method Unsubscribe(l: ListenerId) returns (wasPresent: bool)
      requires Valid()
      modifies this
      ensures Valid()
      ensures wasPresent <==> l in old(listeners)
      ensures listeners == Removed(old(listeners), l)
      ensures toasts == old(toasts) && nextId == old(nextId) && pending == old(pending) && delivered == old(delivered)
    {
      wasPresent := l in listeners;
      listeners := Removed(listeners, l);
    }

    /** `getToasts()` (toast.ts:36-38): the current list, oldest first. */
    function GetToasts(): (r: seq<Toast>)
      reads this
      requires Valid()
      ensures r == toasts
      ensures IdsIncreasing(r)
      ensures forall t :: t in r ==> t.id < nextId
    {
      toasts
    }
  }
}
