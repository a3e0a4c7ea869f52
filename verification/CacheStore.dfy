/** One process's view of the persistent cache: the file handle and the map in memory. */
module CacheStore {
  import opened Options
  import opened CacheFraming
  import opened CacheProtocol

  /** What the processes share: the log and the lock file beside it. */
  class Disk {
    var content: seq<Byte>
    var lockExists: bool
  }

  class CacheFile {
    const disk: Disk
    var cursor: nat
    var isLock: bool

    constructor (disk: Disk)
      ensures this.disk == disk && cursor == 0 && !isLock
    {
      this.disk := disk;
      cursor, isLock := 0, false;
    }

    /** Takes the lock, once it is free, and returns what was written since the cursor, if anything. */
    method Lock() returns (news: Option<seq<Byte>>)
      requires isLock || !disk.lockExists
      modifies this, disk`lockExists
      ensures isLock && (old(isLock) ==> disk.lockExists == old(disk.lockExists)) && (!old(isLock) ==> disk.lockExists)
      ensures cursor == if old(cursor) < |disk.content| then |disk.content| else old(cursor)
      ensures news == if old(cursor) < |disk.content| then Some(disk.content[old(cursor)..]) else None
    {
      if !isLock {
        disk.lockExists := true;
        isLock := true;
      }
      var end := |disk.content|;
      if cursor < end {
        news := Some(disk.content[cursor..]);
        cursor := end;
      } else {
        news := None;
      }
    }

    method Unlock()
      modifies this`isLock, disk`lockExists
      ensures !isLock && (old(isLock) ==> !disk.lockExists)
      ensures (!old(isLock) ==> disk.lockExists == old(disk.lockExists))
    {
      if isLock {
        disk.lockExists := false;
      }
      isLock := false;
    }

    /** Appends to the log; `CacheFile::write` panics without the lock. */
    method Write(bytes: seq<Byte>)
      requires isLock
      modifies this`cursor, disk`content
      ensures disk.content == old(disk.content) + bytes && cursor == old(cursor) + |bytes|
    {
      disk.content := disk.content + bytes;
      cursor := cursor + |bytes|;
    }
  }

  datatype InsertResult<+K, +V> =
    | Inserted
    | DuplicatedKey(key: K, valuePrevious: V, valueUpdated: V)
    | KeyOutOfSync(key: K, valuePrevious: V, valueUpdated: V)

  /** The first entry that gives the key of `e` another value. */
  function FirstConflict<K(==), V(==)>(entries: seq<Entry<K, V>>, e: Option<Entry<K, V>>): Option<Entry<K, V>> {
    if entries == [] || e.None? then None
    else if entries[0].key == e.value.key && entries[0].value != e.value.value then Some(entries[0])
    else FirstConflict(entries[1..], e)
  }

  lemma {:induction false} FirstConflictConcat<K, V>(a: seq<Entry<K, V>>, b: seq<Entry<K, V>>, e: Option<Entry<K, V>>)
    ensures FirstConflict(a + b, e) == if FirstConflict(a, e).Some? then FirstConflict(a, e) else FirstConflict(b, e)
  {
    if a == [] {
      assert a + b == b;
    } else {
      FirstConflictConcat(a[1..], b, e);
      assert (a + b)[0] == a[0] && (a + b)[1..] == a[1..] + b;
    }
  }

  lemma {:induction false} FirstConflictIsOutOfSync<K, V>(entries: seq<Entry<K, V>>, k: K, v: V)
    ensures FirstConflict(entries, Some(Entry(k, v))).Some? <==> OutOfSync(Insert(k, v), entries)
    ensures var r := FirstConflict(entries, Some(Entry(k, v)));
            r.Some? ==> r.value in entries && r.value.key == k && r.value.value != v
  {
    if entries != [] {
      var op := Insert(k, v);
      FirstConflictIsOutOfSync(entries[1..], k, v);
      if OutOfSync(op, entries[1..]) {
        var i :| 0 <= i < |entries[1..]| && entries[1..][i].key == k && entries[1..][i].value != v;
        assert entries[i + 1].key == k && entries[i + 1].value != v;
      }
      if OutOfSync(op, entries) {
        var i :| 0 <= i < |entries| && entries[i].key == k && entries[i].value != v;
        assert i > 0 ==> entries[1..][i - 1] == entries[i];
      }
    }
  }

  /** It is the first: no entry before it gives the key another value. */
  lemma {:induction false} FirstConflictIsFirst<K, V>(entries: seq<Entry<K, V>>, k: K, v: V) returns (i: nat)
    requires FirstConflict(entries, Some(Entry(k, v))).Some?
    ensures i < |entries| && FirstConflict(entries, Some(Entry(k, v))) == Some(entries[i])
    ensures forall j :: 0 <= j < i ==> !(entries[j].key == k && entries[j].value != v)
  {
    if entries[0].key == k && entries[0].value != v {
      i := 0;
    } else {
      i := FirstConflictIsFirst(entries[1..], k, v);
      assert forall j :: 0 < j < i + 1 ==> entries[j] == entries[1..][j - 1];
      i := i + 1;
    }
  }

  lemma EntriesUnfold<K, V>(c: Codec<K, V>, rest: seq<Byte>, pos: nat)
    requires c.separator != [] && Find(rest, c.separator) == Some(pos)
    ensures pos + |c.separator| <= |rest|
    ensures Entries(c, rest) == Decoded(c, rest[..pos]) + Entries(c, rest[pos + |c.separator|..])
  {
  }

  /** The piece up to the next separator. */
  lemma SplitNext<K, V>(c: Codec<K, V>, rest: seq<Byte>, pos: nat, seen: seq<Entry<K, V>>, all: seq<Entry<K, V>>)
    requires c.separator != [] && Find(rest, c.separator) == Some(pos) && all == seen + Entries(c, rest)
    ensures pos + |c.separator| <= |rest|
    ensures all == (seen + Decoded(c, rest[..pos])) + Entries(c, rest[pos + |c.separator|..])
  {
    EntriesUnfold(c, rest, pos);
    Reassociate(seen, Decoded(c, rest[..pos]), Entries(c, rest[pos + |c.separator|..]));
  }

  lemma NoMoreEntries<K, V>(c: Codec<K, V>, rest: seq<Byte>, seen: seq<Entry<K, V>>)
    requires Find(rest, c.separator) == None
    ensures seen + Entries(c, rest) == seen
  {
  }

  /** One more entry. */
  lemma SeeOne<K, V>(m: map<K, V>, seen: seq<Entry<K, V>>, entry: Entry<K, V>, newInsert: Option<Entry<K, V>>)
    ensures Apply(m, seen + [entry]) == Apply(m, seen)[entry.key := entry.value]
    ensures FirstConflict(seen + [entry], newInsert) ==
            if FirstConflict(seen, newInsert).Some? then FirstConflict(seen, newInsert)
            else if newInsert.Some? && newInsert.value.key == entry.key &&
                 newInsert.value.value != entry.value then Some(entry) else None
  {
    FirstConflictConcat(seen, [entry], newInsert);
    assert [entry][1..] == [] && (seen + [entry])[..|seen|] == seen;
  }

  /** What an insertion does to the log and to the map in memory, and what it reports. */
  ghost predicate InsertSpec<K, V>(c: Codec<K, V>, log: seq<Byte>, cursor: nat, key: K, value: V, r: InsertResult<K, V>,
                                   log': seq<Byte>, inMemory': map<K, V>)
    requires cursor <= |log|
  {
    var m := MapOf(c, log);
    && (!r.Inserted? <==> key in m && m[key] != value)
    && (!r.Inserted? ==> r.key == key && r.valuePrevious == m[key] && r.valueUpdated == value)
    && (r.KeyOutOfSync? <==> FirstConflict(Entries(c, log[cursor..]), Some(Entry(key, value))).Some?)
    && log' == log + (if key in m then [] else FrameOne(c, Entry(key, value)))
    && inMemory' == MapOf(c, log') == if key in m then m else m[key := value]
  }

  class Cache<!K(==, !new), !V(==, !new)> {
    const codec: Codec<K, V>
    const file: CacheFile
    var inMemory: map<K, V>

    /** The map in memory is that of the log below the cursor. */
    ghost predicate Synced()
      reads this, file, file.disk
    {
      && file.cursor <= |file.disk.content| && Framed(codec, file.disk.content[..file.cursor])
      && inMemory == MapOf(codec, file.disk.content[..file.cursor])
    }

    constructor (codec: Codec<K, V>, disk: Disk)
      requires codec.separator != [] && !disk.lockExists
      modifies disk`lockExists
      ensures fresh(file) && file.disk == disk && this.codec == codec && !disk.lockExists && !file.isLock
      ensures file.cursor == |disk.content| && inMemory == MapOf(codec, disk.content)
    {
      this.codec := codec;
      this.file := new CacheFile(disk);
      this.inMemory := map[];
      new;
      var news := file.Lock();
      if news.Some? {
        var _ := SyncContent(news.value, None);
        assert disk.content[0..] == disk.content;
      }
      file.Unlock();
    }

    /** One piece between separators: an entry, or something corrupted that is skipped. */
    method SyncPiece(bytes: seq<Byte>, newInsert: Option<Entry<K, V>>, before: Option<Entry<K, V>>, ghost m: map<K, V>,
                     ghost seen: seq<Entry<K, V>>)
      returns (result: Option<Entry<K, V>>)
      requires inMemory == Apply(m, seen) && before == FirstConflict(seen, newInsert)
      modifies this`inMemory
      ensures inMemory == Apply(m, seen + Decoded(codec, bytes))
      ensures result == FirstConflict(seen + Decoded(codec, bytes), newInsert)
    {
      result := before;
      var decoded := codec.decode(bytes);
      if decoded.Some? {
        var entry := decoded.value;
        SeeOne(m, seen, entry, newInsert);
        if newInsert.Some? && result.None? && newInsert.value.key == entry.key && newInsert.value.value != entry.value {
          result := Some(entry);
        }
        inMemory := inMemory[entry.key := entry.value];
      } else {
        assert seen + [] == seen;
      }
    }

    /** The entries up to and including the next separator; returns what is left. */
    method SyncNext(bytes: seq<Byte>, pos: nat, newInsert: Option<Entry<K, V>>, before: Option<Entry<K, V>>,
                    ghost m: map<K, V>, ghost seen: seq<Entry<K, V>>, ghost all: seq<Entry<K, V>>)
      returns (rest: seq<Byte>, result: Option<Entry<K, V>>, ghost now: seq<Entry<K, V>>)
      requires codec.separator != [] && Find(bytes, codec.separator) == Some(pos) && all == seen + Entries(codec, bytes)
      requires inMemory == Apply(m, seen) && before == FirstConflict(seen, newInsert)
      modifies this`inMemory
      ensures |rest| < |bytes| && all == now + Entries(codec, rest)
      ensures inMemory == Apply(m, now) && result == FirstConflict(now, newInsert)
    {
      SplitNext(codec, bytes, pos, seen, all);
      result := SyncPiece(bytes[..pos], newInsert, before, m, seen);
      now := seen + Decoded(codec, bytes[..pos]);
      rest := bytes[pos + |codec.separator|..];
    }

    /**
     Splits the bytes at the separators, puts every entry into the map, and reports the first
     conflict with an insertion.
     */
    method SyncContent(bytes: seq<Byte>, newInsert: Option<Entry<K, V>>) returns (result: Option<Entry<K, V>>)
      requires codec.separator != []
      modifies this`inMemory
      ensures inMemory == Apply(old(inMemory), Entries(codec, bytes))
      ensures result == FirstConflict(Entries(codec, bytes), newInsert)
    {
      result := None;
      var rest := bytes;
      ghost var seen: seq<Entry<K, V>>, all := [], Entries(codec, bytes);
      var next := Find(rest, codec.separator);
      while next.Some?
        invariant next == Find(rest, codec.separator) && all == seen + Entries(codec, rest)
        invariant inMemory == Apply(old(inMemory), seen) && result == FirstConflict(seen, newInsert)
        decreases |rest|
      {
        rest, result, seen := SyncNext(rest, next.value, newInsert, result, old(inMemory), seen, all);
        next := Find(rest, codec.separator);
      }
      NoMoreEntries(codec, rest, seen);
    }

    method InsertUnchecked(key: K, value: V)
      requires file.isLock
      modifies this`inMemory, file`cursor, file.disk`content
      ensures file.disk.content == old(file.disk.content) + FrameOne(codec, Entry(key, value))
      ensures file.cursor == old(file.cursor) + |FrameOne(codec, Entry(key, value))|
      ensures inMemory == old(inMemory)[key := value]
    {
      var bytes := codec.encode(Entry(key, value));
      bytes := bytes + codec.separator;
      file.Write(bytes);
      inMemory := inMemory[key := value];
    }

    /** Everything an insertion or an iteration may rely on. */
    ghost predicate Ready()
      reads this, file, file.disk
    {
      Synced() && codec.separator != [] && !file.isLock && !file.disk.lockExists
    }

    /** Takes the lock and reads up to the end of the log. */
    method Refresh(newInsert: Option<Entry<K, V>>) returns (conflict: Option<Entry<K, V>>)
      requires Sound(codec) && Ready() && LogOk(codec, file.disk.content)
      modifies this`inMemory, file, file.disk`lockExists
      ensures file.isLock && file.disk.lockExists && file.cursor == |file.disk.content|
      ensures inMemory == MapOf(codec, file.disk.content)
      ensures conflict == FirstConflict(Entries(codec, file.disk.content[old(file.cursor)..]), newInsert)
    {
      ghost var log, cursor := file.disk.content, file.cursor;
      SyncReadsAll(codec, log, cursor);
      var news := file.Lock();
      conflict := None;
      if news.Some? {
        conflict := SyncContent(news.value, newInsert);
      } else {
        assert log[cursor..] == [] && Entries<K, V>(codec, []) == [];
      }
    }

    /**
     Inserts an entry. It is refused exactly if the log gives the key another value; otherwise the
     log holds it afterwards, and it was appended exactly if the key was new.
     */
    method InsertEntry(key: K, value: V) returns (r: InsertResult<K, V>)
      requires Sound(codec) && Ready() && LogOk(codec, file.disk.content)
      modifies this`inMemory, file, file.disk
      ensures Ready() && LogOk(codec, file.disk.content) && file.cursor == |file.disk.content|
      ensures InsertSpec(codec, old(file.disk.content), old(file.cursor), key, value, r, file.disk.content, inMemory)
    {
      ghost var log, cursor := file.disk.content, file.cursor;
      var conflict := Refresh(Some(Entry(key, value)));
      assert log[..|log|] == log && log + [] == log;
      FirstConflictIsOutOfSync(Entries(codec, log[cursor..]), key, value);
      if conflict.Some? {
        ConflictIsInMap(codec, log, cursor, key, value, conflict.value);
        file.Unlock();
        return KeyOutOfSync(key, conflict.value.value, value);
      }
      if key in inMemory {
        file.Unlock();
        return if inMemory[key] != value then DuplicatedKey(key, inMemory[key], value) else Inserted;
      }
      AppendKeepsLog(codec, log, key, value);
      InsertUnchecked(key, value);
      file.Unlock();
      assert file.disk.content[..|file.disk.content|] == file.disk.content;
      r := Inserted;
    }

    /** Returns all entries, brought up to date. */
    method Snapshot() returns (all: map<K, V>)
      requires Sound(codec) && Ready() && LogOk(codec, file.disk.content)
      modifies this`inMemory, file, file.disk`lockExists
      ensures Ready() && all == inMemory == MapOf(codec, file.disk.content) && file.cursor == |file.disk.content|
    {
      var _ := Refresh(None);
      assert file.disk.content[..|file.disk.content|] == file.disk.content;
      all := inMemory;
      file.Unlock();
    }
  }

  lemma ConflictIsInMap<K(!new), V(!new)>(c: Codec<K, V>, log: seq<Byte>, cursor: nat, key: K, value: V, e: Entry<K, V>)
    requires Sound(c) && LogOk(c, log) && cursor <= |log| && Framed(c, log[..cursor])
    requires FirstConflict(Entries(c, log[cursor..]), Some(Entry(key, value))) == Some(e)
    ensures key in MapOf(c, log) && MapOf(c, log)[key] == e.value && e.value != value
  {
    SyncReadsAll(c, log, cursor);
    FirstConflictIsOutOfSync(Entries(c, log[cursor..]), key, value);
    MapHoldsEntries(Entries(c, log), key);
    var news, before := Entries(c, log[cursor..]), Entries(c, log[..cursor]);
    var i :| 0 <= i < |news| && news[i] == e;
    assert (before + news)[|before| + i] == e;
  }
}
