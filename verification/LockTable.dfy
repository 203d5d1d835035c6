/** The lock tables of the storage server: entries are created on demand, found by key, and never move or disappear
    (storage_server/storage_server.c: get_or_create_lock, try_acquire_lock, release_lock, and the same table of
    per-file commit locks). */
module LockTables {
  import opened Lists

  const MAX_LOCKS := 1000

  /** One table entry; holder is the user name stored with a sentence lock. */
  datatype Entry<K> = Entry(key: K, locked: bool, holder: string)

  type SentenceKey = (string, int)

  // -------------------------------------------------------------------- the table as a value

  /** The first entry with this key, or |t|. */
  function Find<K(==)>(t: seq<Entry<K>>, key: K): (i: nat)
    ensures i <= |t| && (i < |t| ==> t[i].key == key)
    ensures forall j :: 0 <= j < i ==> t[j].key != key
  {
    FirstIndex(t, (e: Entry<K>) => e.key == key)
  }

  /** The table once the key has an entry; unchanged when it is full and the key is new. */
  function WithEntry<K(==)>(t: seq<Entry<K>>, key: K): seq<Entry<K>> {
    if Find(t, key) == |t| && |t| < MAX_LOCKS then t + [Entry(key, false, "")] else t
  }

  predicate IsLocked<K(==)>(t: seq<Entry<K>>, key: K) {
    var i := Find(t, key);
    i < |t| && t[i].locked
  }

  /** Acquiring succeeds when the key has an entry, or room for one, and nobody holds it. */
  predicate CanAcquire<K(==)>(t: seq<Entry<K>>, key: K) {
    Find(t, key) < |WithEntry(t, key)| && !IsLocked(t, key)
  }

  function SetLock<K(==)>(t: seq<Entry<K>>, key: K, locked: bool, holder: string): (r: seq<Entry<K>>)
    ensures |r| == |t|
  {
    var i := Find(t, key);
    if i < |t| then t[i := t[i].(locked := locked, holder := holder)] else t
  }

  function Acquire<K(==)>(t: seq<Entry<K>>, key: K, user: string): seq<Entry<K>> {
    var u := WithEntry(t, key);
    if CanAcquire(t, key) then SetLock(u, key, true, user) else u
  }

  function Release<K(==)>(t: seq<Entry<K>>, key: K): seq<Entry<K>> {
    SetLock(WithEntry(t, key), key, false, "")
  }

  // ------------------------------------------------------------------------- the table laws

  ghost predicate UniqueKeys<K>(t: seq<Entry<K>>) {
    forall i, j :: 0 <= i < j < |t| ==> t[i].key != t[j].key
  }

  /** u extends t and keeps every entry of t in its slot. */
  ghost predicate KeepsSlots<K>(t: seq<Entry<K>>, u: seq<Entry<K>>) {
    |t| <= |u| && forall i :: 0 <= i < |t| ==> u[i].key == t[i].key
  }

  lemma FindSame<K>(t: seq<Entry<K>>, u: seq<Entry<K>>, key: K)
    requires KeepsSlots(t, u) && Find(t, key) < |t|
    ensures Find(u, key) == Find(t, key)
  {
    hide Find;
    var i, j := Find(t, key), Find(u, key);
    assert u[i].key == key;
    assert !(j < i);
  }

  lemma WithEntryLaws<K>(t: seq<Entry<K>>, key: K)
    requires UniqueKeys(t) && |t| <= MAX_LOCKS
    ensures var u := WithEntry(t, key);
            && UniqueKeys(u) && KeepsSlots(t, u) && |u| <= MAX_LOCKS
            && Find(u, key) == Find(t, key)
            && forall k :: IsLocked(u, k) == IsLocked(t, k)
  {
    var u := WithEntry(t, key);
    hide Find;
    if u != t {
      assert u[|t|].key == key && !u[|t|].locked;
      forall k
        ensures IsLocked(u, k) == IsLocked(t, k)
      {
        if Find(t, k) < |t| {
          FindSame(t, u, k);
        }
      }
    }
  }

  lemma SetLockLaws<K>(t: seq<Entry<K>>, key: K, locked: bool, holder: string)
    requires UniqueKeys(t)
    ensures var u := SetLock(t, key, locked, holder);
            && UniqueKeys(u) && KeepsSlots(t, u)
            && (Find(t, key) < |t| ==> IsLocked(u, key) == locked)
            && forall k :: k != key ==> IsLocked(u, k) == IsLocked(t, k)
  {
    var u := SetLock(t, key, locked, holder);
    forall k
      ensures Find(u, k) == Find(t, k)
    {
      if Find(t, k) < |t| {
        FindSame(t, u, k);
      } else {
        assert !(Find(u, k) < |u|);
      }
    }
  }

  ghost predicate HasEntry<K>(t: seq<Entry<K>>, key: K) {
    exists i :: 0 <= i < |t| && t[i].key == key
  }

  lemma FoundIff<K>(t: seq<Entry<K>>, key: K)
    ensures Find(t, key) < |t| <==> HasEntry(t, key)
  {
    hide Find;
    if HasEntry(t, key) {
      var i :| 0 <= i < |t| && t[i].key == key;
      assert !(i < Find(t, key));
    }
  }

  /** A key can be acquired exactly when it is not locked and has an entry in the table, or room for one. */
  lemma CanAcquireIff<K>(t: seq<Entry<K>>, key: K)
    ensures CanAcquire(t, key) <==> !IsLocked(t, key) && (HasEntry(t, key) || |t| < MAX_LOCKS)
  {
    hide IsLocked;
    FoundIff(t, key);
  }

  /** Acquiring grants the lock exactly when it is free and has a slot; it touches no other key. */
  lemma AcquireLaws<K>(t: seq<Entry<K>>, key: K, user: string)
    requires UniqueKeys(t) && |t| <= MAX_LOCKS
    ensures var u := Acquire(t, key, user);
            && UniqueKeys(u) && KeepsSlots(t, u) && |u| <= MAX_LOCKS
            && (CanAcquire(t, key) ==> !IsLocked(t, key) && IsLocked(u, key))
            && (!CanAcquire(t, key) ==> IsLocked(u, key) == IsLocked(t, key))
            && forall k :: k != key ==> IsLocked(u, k) == IsLocked(t, k)
  {
    WithEntryLaws(t, key);
    SetLockLaws(WithEntry(t, key), key, true, user);
  }

  /** Releasing frees this key and no other. */
  lemma ReleaseLaws<K>(t: seq<Entry<K>>, key: K)
    requires UniqueKeys(t) && |t| <= MAX_LOCKS
    ensures var u := Release(t, key);
            && UniqueKeys(u) && KeepsSlots(t, u) && |u| <= MAX_LOCKS
            && !IsLocked(u, key)
            && forall k :: k != key ==> IsLocked(u, k) == IsLocked(t, k)
  {
    WithEntryLaws(t, key);
    SetLockLaws(WithEntry(t, key), key, false, "");
  }

  /** Both find the entry of the key or make one, and change no other: who is granted the key is its holder. */
  lemma EntryLaws<K>(t: seq<Entry<K>>, key: K, user: string)
    requires UniqueKeys(t) && |t| <= MAX_LOCKS
    ensures var granted, a, r := !IsLocked(t, key) && (HasEntry(t, key) || |t| < MAX_LOCKS), Acquire(t, key, user),
                                 Release(t, key);
            && |a| == |r| == (if HasEntry(t, key) || |t| == MAX_LOCKS then |t| else |t| + 1)
            && (forall i :: 0 <= i < |t| && t[i].key != key ==> a[i] == r[i] == t[i])
            && (forall i :: 0 <= i < |a| && (i == |t| || t[i].key == key) ==>
                  && a[i] == (if granted then Entry(key, true, user) else t[i])
                  && r[i] == Entry(key, false, ""))
  {
    CanAcquireIff(t, key);
    FoundIff(t, key);
    WithEntryLaws(t, key);
  }

  // ---------------------------------------------------------------------- the array of locks

  class SentenceLockTable {
    const entries: array<Entry<SentenceKey>>
    var count: nat

    ghost predicate Valid()
      reads this, entries
    {
      entries.Length == MAX_LOCKS && count <= entries.Length && UniqueKeys(Contents())
    }

    ghost function Contents(): seq<Entry<SentenceKey>>
      requires count <= entries.Length
      reads this, entries
    {
      entries[..count]
    }

    constructor ()
      ensures Valid() && fresh(entries) && Contents() == []
    {
      entries := new Entry<SentenceKey>[MAX_LOCKS](_ => Entry(("", 0), false, ""));
      count := 0;
    }

    /** get_or_create_lock; -1 stands for the null pointer. */
    method GetOrCreateLock(filename: string, sentence: int) returns (slot: int)
      requires Valid()
      modifies this, entries
      ensures Valid() && Contents() == WithEntry(old(Contents()), (filename, sentence))
      ensures var i := Find(Contents(), (filename, sentence)); slot == if i < count then i else -1
    {
      ghost var t := Contents();
      var key := (filename, sentence);
      WithEntryLaws(t, key);
      var i := 0;
      while i < count
        invariant 0 <= i <= count && count == old(count) && Contents() == t && Find(t, key) >= i
      {
        assert t[i] == entries[i];
        if entries[i].key.0 == filename && entries[i].key.1 == sentence {
          return i;
        }
        i := i + 1;
      }
      if count < MAX_LOCKS {
        entries[count] := Entry(key, false, "");
        count := count + 1;
        assert Contents() == t + [Entry(key, false, "")];
        return count - 1;
      }
      return -1;
    }

    /** try_acquire_lock: find the entry, then test and set it under its own mutex. */
    method TryAcquireLock(filename: string, sentence: int, username: string) returns (granted: bool)
      requires Valid()
      modifies this, entries
      ensures Valid() && granted == CanAcquire(old(Contents()), (filename, sentence))
      ensures Contents() == Acquire(old(Contents()), (filename, sentence), username)
    {
      ghost var t, key := Contents(), (filename, sentence);
      WithEntryLaws(t, key);
      SetLockLaws(WithEntry(t, key), key, true, username);
      var slot := GetOrCreateLock(filename, sentence);
      if slot < 0 {
        return false;
      }
      assert entries[slot] == Contents()[slot];
      assert IsLocked(t, key) == entries[slot].locked;
      if entries[slot].locked {
        return false;
      }
      ghost var u := Contents();
      entries[slot] := entries[slot].(locked := true, holder := username);
      assert Contents() == u[slot := u[slot].(locked := true, holder := username)];
      return true;
    }

    method ReleaseLock(filename: string, sentence: int)
      requires Valid()
      modifies this, entries
      ensures Valid() && Contents() == Release(old(Contents()), (filename, sentence))
    {
      ghost var t, key := Contents(), (filename, sentence);
      WithEntryLaws(t, key);
      SetLockLaws(WithEntry(t, key), key, false, "");
      var slot := GetOrCreateLock(filename, sentence);
      if slot < 0 {
        return;
      }
      ghost var u := Contents();
      entries[slot] := entries[slot].(locked := false, holder := "");
      assert Contents() == u[slot := u[slot].(locked := false, holder := "")];
    }
  }
}
