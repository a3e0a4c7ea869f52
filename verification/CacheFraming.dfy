/**
 The byte format of the persistent cache: encoded entries, each followed by a separator. Splitting a
 log at the separators gives back the entries, whole or piece by piece.
 */
module CacheFraming {
  import opened Options

  type Byte = b: int | 0 <= b < 256

  datatype Entry<+K, +V> = Entry(key: K, value: V)

  /** How entries become bytes. Decoding may fail. */
  datatype Codec<!K, !V> = Codec(encode: Entry<K, V> -> seq<Byte>, decode: seq<Byte> -> Option<Entry<K, V>>,
                                 separator: seq<Byte>)

  // ---------------------------------------------------------------------------------------
  // Finding the separator
  // ---------------------------------------------------------------------------------------

  predicate MatchesAt(bytes: seq<Byte>, separator: seq<Byte>, pos: nat) {
    pos + |separator| <= |bytes| && bytes[pos..pos + |separator|] == separator
  }

  /** The first occurrence of the separator from `from` on. */
  function FindFrom(bytes: seq<Byte>, separator: seq<Byte>, from: nat): (r: Option<nat>)
    ensures r.Some? ==> from <= r.value && r.value + |separator| <= |bytes|
    decreases |bytes| - from
  {
    if from + |separator| > |bytes| then None
    else if MatchesAt(bytes, separator, from) then Some(from)
    else FindFrom(bytes, separator, from + 1)
  }

  lemma {:induction false} FindsFirst(bytes: seq<Byte>, separator: seq<Byte>, from: nat)
    ensures var r := FindFrom(bytes, separator, from);
            && (r.Some? ==> MatchesAt(bytes, separator, r.value) && forall p: nat ::
               from <= p < r.value ==> !MatchesAt(bytes, separator, p))
            && (r.None? ==> forall p: nat :: from <= p ==> !MatchesAt(bytes, separator, p))
    decreases |bytes| - from
  {
    if from + |separator| <= |bytes| && !MatchesAt(bytes, separator, from) {
      FindsFirst(bytes, separator, from + 1);
    }
  }

  function Find(bytes: seq<Byte>, separator: seq<Byte>): Option<nat> {
    FindFrom(bytes, separator, 0)
  }

  /** The separator ends an encoded entry and does not occur earlier, not even overlapping its end. */
  ghost predicate EndsCleanly(bytes: seq<Byte>, separator: seq<Byte>) {
    Find(bytes + separator, separator) == Some(|bytes|)
  }

  ghost predicate Sound<K(!new), V(!new)>(c: Codec<K, V>) {
    && c.separator != []
    && forall e: Entry<K, V> :: c.decode(c.encode(e)) == Some(e) && EndsCleanly(c.encode(e), c.separator)
  }

  /** For a separator of one byte, such as a line break, it suffices that no encoding contains it. */
  lemma SingleByteEndsCleanly(bytes: seq<Byte>, b: Byte)
    ensures EndsCleanly(bytes, [b]) <==> b !in bytes
  {
    var all := bytes + [b];
    assert MatchesAt(all, [b], |bytes|);
    var r := Find(all, [b]);
    FindsFirst(all, [b], 0);
    if b in bytes {
      var p :| 0 <= p < |bytes| && bytes[p] == b;
      assert all[p..p + 1] == [b];
      assert MatchesAt(all, [b], p);
    } else {
      assert all[r.value..r.value + 1][0] == b;
    }
  }

  /** What follows the separator does not matter for where it is found first. */
  lemma FindIgnoresRest(bytes: seq<Byte>, separator: seq<Byte>, rest: seq<Byte>)
    requires EndsCleanly(bytes, separator)
    ensures Find(bytes + separator + rest, separator) == Some(|bytes|)
  {
    var short, long := bytes + separator, bytes + separator + rest;
    forall p: nat | p <= |bytes|
      ensures MatchesAt(long, separator, p) <==> MatchesAt(short, separator, p)
    {
      assert long[p..p + |separator|] == short[p..p + |separator|];
    }
    FindsFirst(short, separator, 0);
    FindsFirst(long, separator, 0);
    assert MatchesAt(long, separator, |bytes|);
  }

  // ---------------------------------------------------------------------------------------
  // Splitting and framing
  // ---------------------------------------------------------------------------------------

  function Decoded<K, V>(c: Codec<K, V>, bytes: seq<Byte>): seq<Entry<K, V>> {
    match c.decode(bytes)
    case Some(e) => [e]
    case None => []
  }

  /** The entries of a log in order; what cannot be decoded is skipped, and so is an unfinished end. */
  function Entries<K, V>(c: Codec<K, V>, bytes: seq<Byte>): seq<Entry<K, V>>
    decreases |bytes|
  {
    if c.separator == [] then []
    else
      match Find(bytes, c.separator)
      case None => []
      case Some(pos) => Decoded(c, bytes[..pos]) + Entries(c, bytes[pos + |c.separator|..])
  }

  function FrameOne<K, V>(c: Codec<K, V>, e: Entry<K, V>): seq<Byte> {
    c.encode(e) + c.separator
  }

  function Frame<K, V>(c: Codec<K, V>, entries: seq<Entry<K, V>>): seq<Byte> {
    if entries == [] then [] else FrameOne(c, entries[0]) + Frame(c, entries[1..])
  }

  lemma {:induction false} FrameConcat<K, V>(c: Codec<K, V>, a: seq<Entry<K, V>>, b: seq<Entry<K, V>>)
    ensures Frame(c, a + b) == Frame(c, a) + Frame(c, b)
  {
    if a == [] {
      assert a + b == b;
    } else {
      FrameConcat(c, a[1..], b);
      assert (a + b)[0] == a[0] && (a + b)[1..] == a[1..] + b;
      Reassociate(FrameOne(c, a[0]), Frame(c, a[1..]), Frame(c, b));
    }
  }

  lemma SplitOne<K(!new), V(!new)>(c: Codec<K, V>, e: Entry<K, V>, rest: seq<Byte>)
    requires Sound(c)
    ensures Entries(c, FrameOne(c, e) + rest) == [e] + Entries(c, rest)
  {
    var bytes := c.encode(e);
    var all := bytes + c.separator + rest;
    FindIgnoresRest(bytes, c.separator, rest);
    assert all[..|bytes|] == bytes && all[|bytes| + |c.separator|..] == rest;
  }

  /** What cannot be decoded is skipped, and what follows it is still read. */
  lemma CorruptedIsSkipped<K(!new), V(!new)>(c: Codec<K, V>, junk: seq<Byte>, rest: seq<Byte>)
    requires c.separator != [] && EndsCleanly(junk, c.separator) && c.decode(junk) == None
    ensures Entries(c, junk + c.separator + rest) == Entries(c, rest)
  {
    var all := junk + c.separator + rest;
    FindIgnoresRest(junk, c.separator, rest);
    assert all[..|junk|] == junk && all[|junk| + |c.separator|..] == rest;
    assert [] + Entries(c, rest) == Entries(c, rest);
  }

  lemma Reassociate<T>(a: seq<T>, b: seq<T>, c: seq<T>)
    ensures (a + b) + c == a + (b + c)
  {
  }

  /** Splitting undoes framing, whatever follows. */
  lemma {:induction false} SplitUndoesFrame<K(!new), V(!new)>(c: Codec<K, V>, entries: seq<Entry<K, V>>,
                                                              rest: seq<Byte>)
    requires Sound(c)
    ensures Entries(c, Frame(c, entries) + rest) == entries + Entries(c, rest)
  {
    if entries == [] {
      assert Frame(c, entries) + rest == rest && entries + Entries(c, rest) == Entries(c, rest);
    } else {
      var head, tail := FrameOne(c, entries[0]), Frame(c, entries[1..]);
      SplitUndoesFrame(c, entries[1..], rest);
      SplitOne(c, entries[0], tail + rest);
      Reassociate(head, tail, rest);
      Reassociate([entries[0]], entries[1..], Entries(c, rest));
      assert [entries[0]] + entries[1..] == entries;
    }
  }

  /** A log of complete entries. */
  ghost predicate Framed<K, V>(c: Codec<K, V>, log: seq<Byte>) {
    log == Frame(c, Entries(c, log))
  }

  lemma FrameIsFramed<K(!new), V(!new)>(c: Codec<K, V>, entries: seq<Entry<K, V>>)
    requires Sound(c)
    ensures Entries(c, Frame(c, entries)) == entries && Framed(c, Frame(c, entries))
  {
    SplitUndoesFrame(c, entries, []);
    assert Frame(c, entries) + [] == Frame(c, entries) && Find([], c.separator) == None;
  }

  /** Two complete logs one after the other. */
  lemma FramedConcat<K(!new), V(!new)>(c: Codec<K, V>, a: seq<Byte>, b: seq<Byte>)
    requires Sound(c) && Framed(c, a)
    ensures Entries(c, a + b) == Entries(c, a) + Entries(c, b)
    ensures Framed(c, b) <==> Framed(c, a + b)
  {
    var left, right := Entries(c, a), Entries(c, b);
    SplitUndoesFrame(c, left, b);
    FrameConcat(c, left, right);
    if Framed(c, a + b) {
      assert (a + b)[|a|..] == b && (a + Frame(c, right))[|a|..] == Frame(c, right);
    }
  }

  // ---------------------------------------------------------------------------------------
  // The map of a log
  // ---------------------------------------------------------------------------------------

  function Apply<K, V>(m: map<K, V>, entries: seq<Entry<K, V>>): map<K, V> {
    if entries == [] then m
    else Apply(m, entries[..|entries| - 1])[entries[|entries| - 1].key := entries[|entries| - 1].value]
  }

  lemma {:induction false} ApplyConcat<K, V>(m: map<K, V>, a: seq<Entry<K, V>>, b: seq<Entry<K, V>>)
    ensures Apply(m, a + b) == Apply(Apply(m, a), b)
    decreases |b|
  {
    if b == [] {
      assert a + b == a;
    } else {
      var n := |b| - 1;
      ApplyConcat(m, a, b[..n]);
      assert (a + b)[..|a + b| - 1] == a + b[..n];
    }
  }

  ghost predicate NoKeyAfter<K, V>(entries: seq<Entry<K, V>>, i: int, k: K) {
    forall j :: 0 <= j < |entries| && i < j ==> entries[j].key != k
  }

  /** For each key the last entry counts, and a key without entry keeps what it had. */
  lemma {:induction false} LastEntryWins<K, V>(m: map<K, V>, entries: seq<Entry<K, V>>, i: int, k: K)
    requires -1 <= i < |entries| && (i >= 0 ==> entries[i].key == k) && NoKeyAfter(entries, i, k)
    ensures i >= 0 ==> k in Apply(m, entries) && Apply(m, entries)[k] == entries[i].value
    ensures i < 0 ==> (k in Apply(m, entries) <==> k in m) && (k in m ==> Apply(m, entries)[k] == m[k])
    decreases |entries|
  {
    if entries != [] {
      var n := |entries| - 1;
      if i < n {
        assert entries[n].key != k;
        LastEntryWins(m, entries[..n], i, k);
      }
    }
  }

  function MapOf<K, V>(c: Codec<K, V>, log: seq<Byte>): map<K, V> {
    Apply(map[], Entries(c, log))
  }

  /** Reading a log in two pieces from successive cursors gives the map of the whole. */
  lemma PiecesMakeTheWhole<K(!new), V(!new)>(c: Codec<K, V>, a: seq<Byte>, b: seq<Byte>)
    requires Sound(c) && Framed(c, a)
    ensures MapOf(c, a + b) == Apply(MapOf(c, a), Entries(c, b))
  {
    FramedConcat(c, a, b);
    ApplyConcat(map[], Entries(c, a), Entries(c, b));
  }

  /** No key has two values. */
  ghost predicate Consistent<K, V>(entries: seq<Entry<K, V>>) {
    forall i, j ::
      0 <= i < |entries| && 0 <= j < |entries| && entries[i].key == entries[j].key ==>
        entries[i].value == entries[j].value
  }

  /** Then the map holds exactly the entries. */
  lemma {:induction false} MapHoldsEntries<K, V>(entries: seq<Entry<K, V>>, k: K)
    requires Consistent(entries)
    ensures k in Apply(map[], entries) <==> exists i :: 0 <= i < |entries| && entries[i].key == k
    ensures forall i ::
            0 <= i < |entries| && entries[i].key == k ==>
              k in Apply(map[], entries) && Apply(map[], entries)[k] == entries[i].value
    decreases |entries|
  {
    if entries != [] {
      var n := |entries| - 1;
      MapHoldsEntries(entries[..n], k);
      assert forall i :: 0 <= i < n ==> entries[i] == entries[..n][i];
    }
  }
}
