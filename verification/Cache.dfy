/**
 The cache with expiry, against a plain map from keys to values with deadlines.

 Slots are freed lazily, so the cache and the map differ in what they hold; they never differ in
 what they answer.
 */
module Cache {
  import opened Options

  // `expires` 0 means never.
  datatype Item<V> = Item(value: V, expires: int)

  datatype Slot<K, V> = Free | Used(key: K, item: Item<V>)

  predicate Expired<V>(item: Item<V>, now: int) {
    item.expires > 0 && now > item.expires
  }

  function Expiry(ttl: int, now: int): int {
    if ttl > 0 then now + ttl else 0
  }

  // What a plain map answers at time `now`.
  function Answer<K, V>(m: map<K, Item<V>>, key: K, now: int): Option<V> {
    if key in m && !Expired(m[key], now) then Some(m[key].value) else None
  }

  function CountUsed<K, V>(slots: seq<Slot<K, V>>): nat {
    if slots == [] then 0 else CountUsed(slots[..|slots| - 1]) + if slots[|slots| - 1].Used? then 1 else 0
  }

  lemma {:induction false} CountUpdate<K, V>(slots: seq<Slot<K, V>>, i: nat, s: Slot<K, V>)
    requires i < |slots|
    ensures CountUsed(slots[i := s])
         == CountUsed(slots) + (if s.Used? then 1 else 0) - (if slots[i].Used? then 1 else 0)
  {
    var last := |slots| - 1;
    if i < last {
      CountUpdate(slots[..last], i, s);
      assert slots[i := s][..last] == slots[..last][i := s];
    } else {
      assert slots[i := s][..last] == slots[..last];
    }
  }

  // Fewer used slots than slots leave one free.
  lemma {:induction false} AllUsed<K, V>(slots: seq<Slot<K, V>>)
    ensures CountUsed(slots) <= |slots|
    ensures CountUsed(slots) == |slots| <==> forall i | 0 <= i < |slots| :: slots[i].Used?
  {
    if slots != [] {
      var last := |slots| - 1;
      AllUsed(slots[..last]);
      assert CountUsed(slots) == |slots| ==> forall i | 0 <= i < last :: slots[..last][i].Used?;
      assert (forall i | 0 <= i < |slots| :: slots[i].Used?) ==> forall i | 0 <= i < last :: slots[..last][i].Used?;
    }
  }

  lemma {:induction false} NoneUsed<K, V>(slots: seq<Slot<K, V>>)
    requires forall i | 0 <= i < |slots| :: slots[i].Free?
    ensures CountUsed(slots) == 0
  {
    if slots != [] { NoneUsed(slots[..|slots| - 1]); }
  }

  // ---------- slots as a map ----------

  // `where` tells for every key the one slot that holds it.
  ghost predicate SlotOk<K, V>(slots: seq<Slot<K, V>>, where: map<K, nat>, i: nat) {
    i < |slots| && slots[i].Used? ==> slots[i].key in where && where[slots[i].key] == i
  }

  ghost predicate KeyOk<K, V>(slots: seq<Slot<K, V>>, where: map<K, nat>, key: K) {
    key in where ==> where[key] < |slots| && slots[where[key]].Used? && slots[where[key]].key == key
  }

  ghost predicate Unique<K(!new), V>(slots: seq<Slot<K, V>>, where: map<K, nat>) {
    (forall i: nat :: SlotOk(slots, where, i)) && (forall key: K :: KeyOk(slots, where, key))
  }

  // Every key has the same item in the slots as in the map, or has expired in the map and is gone.
  ghost predicate Agrees<K, V>(slots: seq<Slot<K, V>>, where: map<K, nat>, ideal: map<K, Item<V>>, now: int, key: K) {
    if key in where then where[key] < |slots| && slots[where[key]].Used? && key in ideal
      && ideal[key] == slots[where[key]].item
    else key in ideal ==> Expired(ideal[key], now)
  }

  ghost predicate Refines<K(!new), V>(slots: seq<Slot<K, V>>, where: map<K, nat>, ideal: map<K, Item<V>>, now: int) {
    Unique(slots, where) && forall key: K :: Agrees(slots, where, ideal, now, key)
  }

  lemma Later<K(!new), V>(slots: seq<Slot<K, V>>, where: map<K, nat>, ideal: map<K, Item<V>>, now: int, now': int)
    requires Refines(slots, where, ideal, now) && now <= now'
    ensures Refines(slots, where, ideal, now')
  {
    forall key: K ensures Agrees(slots, where, ideal, now', key) {
      assert Agrees(slots, where, ideal, now, key);
    }
  }

  // Freeing a slot matches removing its key, and matches doing nothing if it has expired.
  lemma Freed<K(!new), V>(slots: seq<Slot<K, V>>, where: map<K, nat>, ideal: map<K, Item<V>>, now: int, i: nat)
    requires Refines(slots, where, ideal, now) && i < |slots| && slots[i].Used?
    ensures var key := slots[i].key;
      && Refines(slots[i := Free], where - {key}, ideal - {key}, now)
      && (Expired(slots[i].item, now) ==> Refines(slots[i := Free], where - {key}, ideal, now))
  {
    var key := slots[i].key;
    var slots', where' := slots[i := Free], where - {key};
    assert SlotOk(slots, where, i) && Agrees(slots, where, ideal, now, key);
    forall j: nat ensures SlotOk(slots', where', j) {
      assert SlotOk(slots, where, j);
    }
    forall k: K ensures KeyOk(slots', where', k) {
      assert KeyOk(slots, where, k);
    }
    forall k: K ensures Agrees(slots', where', ideal - {key}, now, k)
      && (Expired(slots[i].item, now) ==> Agrees(slots', where', ideal, now, k)) {
      assert Agrees(slots, where, ideal, now, k) && KeyOk(slots, where, k);
    }
  }

  // Writing an item into the slot of its key, or into a free slot if it has none.
  lemma Written<K(!new), V>(slots: seq<Slot<K, V>>, where: map<K, nat>, ideal: map<K, Item<V>>, now: int, i: nat,
                  key: K, item: Item<V>)
    requires Refines(slots, where, ideal, now) && i < |slots|
    requires if key in where then where[key] == i else slots[i].Free?
    ensures Refines(slots[i := Used(key, item)], where[key := i], ideal[key := item], now)
  {
    var slots', where', ideal' := slots[i := Used(key, item)], where[key := i], ideal[key := item];
    assert SlotOk(slots, where, i) && KeyOk(slots, where, key);
    forall j: nat ensures SlotOk(slots', where', j) {
      assert SlotOk(slots, where, j);
    }
    forall k: K ensures KeyOk(slots', where', k) {
      assert KeyOk(slots, where, k);
    }
    forall k: K ensures Agrees(slots', where', ideal', now, k) {
      assert Agrees(slots, where, ideal, now, k) && KeyOk(slots, where, k);
    }
  }

  class Store<K(==, !new), V> {
    const slots: array<Slot<K, V>>
    var count: int
    var hits: nat
    var misses: nat
    var sets: nat

    // The plain map, the slot of each key, and the latest time seen.
    ghost var ideal: map<K, Item<V>>
    ghost var where: map<K, nat>
    ghost var clock: nat

    ghost predicate Valid()
      reads this, slots
    {
      count == CountUsed(slots[..]) && Refines(slots[..], where, ideal, clock)
    }

    constructor (max: nat)
      ensures Valid() && slots.Length == max && ideal == map[] && where == map[] && clock == 0
        && hits == misses == sets == 0 && fresh(slots)
    {
      slots := new Slot<K, V>[max](_ => Free);
      count, hits, misses, sets := 0, 0, 0, 0;
      ideal, where, clock := map[], map[], 0;
      new;
      NoneUsed(slots[..]);
    }

    method Release(i: nat)
      requires Valid() && i < slots.Length && slots[i].Used? && Expired(slots[i].item, clock)
      modifies this`count, this`where, slots
      ensures Valid() && slots[..] == old(slots[..])[i := Free] && where == old(where) - {old(slots[i]).key}
        && count == old(count) - 1
    {
      CountUpdate(slots[..], i, Free);
      Freed(slots[..], where, ideal, clock, i);
      where := where - {slots[i].key};
      slots[i] := Free;
      count := count - 1;
      assert slots[..] == old(slots[..])[i := Free];
    }

    // cache_find: the slot of the key, or -1. An expired slot of the key is freed on the way.
    method Find(key: K, now: int) returns (r: int)
      requires Valid() && now >= clock
      modifies this`count, this`where, this`clock, slots
      ensures Valid() && clock == now
      ensures -1 <= r < slots.Length && (r >= 0 <==> Answer(ideal, key, now).Some?)
      ensures r >= 0 ==> key in where && where[key] == r && where == old(where) && slots[r] == Used(key, ideal[key])
      ensures r < 0 ==> where == old(where) - {key}
      ensures count == old(count) - if r < 0 && key in old(where) then 1 else 0
    {
      Later(slots[..], where, ideal, clock, now);
      clock := now;
      for i := 0 to slots.Length
        invariant Valid() && clock == now && where == old(where) && count == old(count)
        invariant forall j | 0 <= j < i :: slots[j].Used? ==> slots[j].key != key
      {
        if slots[i].Used? && slots[i].key == key {
          assert SlotOk(slots[..], where, i) && Agrees(slots[..], where, ideal, now, key);
          if Expired(slots[i].item, now) {
            Release(i);
            return -1;
          }
          return i;
        }
      }
      assert KeyOk(slots[..], where, key) && Agrees(slots[..], where, ideal, now, key);
      assert key !in where;
      assert where - {key} == where;
      return -1;
    }

    method Write(i: nat, key: K, item: Item<V>)
      requires Valid() && i < slots.Length && if key in where then where[key] == i else slots[i].Free?
      modifies this`count, this`where, this`ideal, slots
      ensures Valid() && where == old(where)[key := i] && ideal == old(ideal)[key := item]
    {
      assert KeyOk(slots[..], where, key);
      CountUpdate(slots[..], i, Used(key, item));
      Written(slots[..], where, ideal, clock, i, key, item);
      if slots[i].Free? {
        count := count + 1;
      }
      slots[i] := Used(key, item);
      where, ideal := where[key := i], ideal[key := item];
      assert slots[..] == old(slots[..])[i := Used(key, item)];
    }

    // cache_set, at time `now` and, for the new deadline, `later`. It is refused exactly if every
    // slot is in use and none holds the key.
    method Set(key: K, value: V, ttl: int, now: int, later: int) returns (ok: bool)
      requires Valid() && clock <= now <= later
      modifies this`count, this`sets, this`where, this`ideal, this`clock, slots
      ensures Valid() && clock == later
      ensures ok <==> !(old(count) == slots.Length && key !in old(where))
      ensures ideal == if ok then old(ideal)[key := Item(value, Expiry(ttl, later))] else old(ideal)
      ensures !ok ==> Answer(ideal, key, later) == None
      ensures sets == old(sets) + if ok then 1 else 0
    {
      AllUsed(slots[..]);
      var e := Find(key, now);
      Later(slots[..], where, ideal, clock, later);
      clock := later;
      AllUsed(slots[..]);
      if e >= 0 {
        Write(e, key, Item(value, Expiry(ttl, later)));
        sets := sets + 1;
        return true;
      }
      if count >= slots.Length {
        return false;
      }
      for i := 0 to slots.Length
        invariant forall j | 0 <= j < i :: slots[j].Used?
      {
        if slots[i].Free? {
          Write(i, key, Item(value, Expiry(ttl, later)));
          sets := sets + 1;
          return true;
        }
      }
      assert false;
    }

    // cache_get
    method Get(key: K, now: int) returns (r: Option<V>)
      requires Valid() && now >= clock
      modifies this`count, this`hits, this`misses, this`where, this`clock, slots
      ensures Valid() && clock == now && r == Answer(ideal, key, now)
      ensures if r.Some? then hits == old(hits) + 1 && misses == old(misses)
              else hits == old(hits) && misses == old(misses) + 1
    {
      var e := Find(key, now);
      if e >= 0 {
        hits := hits + 1;
        return Some(slots[e].item.value);
      }
      misses := misses + 1;
      return None;
    }

    // An item stored with a positive ttl is found up to its deadline, that second included, and not after it;
    // one stored without is found whenever. One that was refused is not.
    method SetThenGet(key: K, value: V, ttl: int, now: int, later: int, at: int) returns (ok: bool, r: Option<V>)
      requires Valid() && clock <= now <= later <= at
      modifies this, slots
      ensures Valid() && (ok <==> !(old(count) == slots.Length && key !in old(where)))
      ensures r == if ok && (ttl <= 0 || at <= later + ttl) then Some(value) else None
    {
      ok := Set(key, value, ttl, now, later);
      r := Get(key, at);
    }

    // cache_del
    method Del(key: K, now: int) returns (ok: bool)
      requires Valid() && now >= clock
      modifies this`count, this`where, this`ideal, this`clock, slots
      ensures Valid() && clock == now && (ok <==> Answer(old(ideal), key, now).Some?)
      ensures ok ==> ideal == old(ideal) - {key}
      ensures !ok ==> ideal == old(ideal)
    {
      var e := Find(key, now);
      if e < 0 { return false; }
      ghost var before := slots[..];
      CountUpdate(before, e, Free);
      Freed(before, where, ideal, now, e);
      where, ideal := where - {key}, ideal - {key};
      slots[e] := Free;
      count := count - 1;
      assert slots[..] == before[e := Free];
      return true;
    }

    // cache_flush
    method Flush()
      modifies this`count, this`where, this`ideal, slots
      ensures Valid() && ideal == map[] && count == 0
    {
      for i := 0 to slots.Length
        invariant forall j | 0 <= j < i :: slots[j].Free?
      {
        if slots[i].Used? {
          slots[i] := Free;
        }
      }
      count := 0;
      where, ideal := map[], map[];
      NoneUsed(slots[..]);
    }

    // cache_cleanup: afterwards no expired item is in use.
    method Cleanup(now: int) returns (cleaned: nat)
      requires Valid() && now >= clock
      modifies this`count, this`where, this`clock, slots
      ensures Valid() && clock == now && count == old(count) - cleaned
      ensures forall i | 0 <= i < slots.Length :: slots[i].Used? ==> !Expired(slots[i].item, now)
    {
      cleaned := 0;
      Later(slots[..], where, ideal, clock, now);
      clock := now;
      for i := 0 to slots.Length
        invariant Valid() && clock == now && count == old(count) - cleaned
        invariant forall j | 0 <= j < i :: slots[j].Used? ==> !Expired(slots[j].item, now)
      {
        if slots[i].Used? && Expired(slots[i].item, now) {
          Release(i);
          assert forall j | 0 <= j < i :: slots[j] == slots[..][j];
          cleaned := cleaned + 1;
        }
      }
    }
  }
}
