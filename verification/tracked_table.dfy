/** The table of currently tracked markers: the latest record per session id.
    It is a Python dictionary, so it remembers insertion order, and the
    selection loops visit markers in that order. It is modelled as a sequence
    of entries with pairwise distinct keys. */
module TrackedTable {
  import opened Wrappers
  import opened Markers

  datatype Entry = Entry(key: SessionKey, rec: Record)

  type Table = seq<Entry>

  /** Every session id occurs at most once: the dictionary invariant. */
  predicate KeysUnique(t: Table) {
    forall i, j | 0 <= i < j < |t| :: t[i].key != t[j].key
  }

  function KeySet(t: Table): set<SessionKey> {
    set i | 0 <= i < |t| :: t[i].key
  }

  /** The position of key `k` in the table, if it is there. */
  function IndexOf(t: Table, k: SessionKey): (r: Option<nat>)
    ensures r.Some? ==> r.value < |t| && t[r.value].key == k
    ensures r.None? <==> k !in KeySet(t)
  {
    if |t| == 0 then None
    else if t[|t| - 1].key == k then Some(|t| - 1)
    else
      var r := IndexOf(t[..|t| - 1], k);
      assert KeySet(t) == KeySet(t[..|t| - 1]) + {t[|t| - 1].key} by {
        assert forall i | 0 <= i < |t| - 1 :: t[..|t| - 1][i] == t[i];
      }
      r
  }

  /** The latest record stored under `k`. */
  function Lookup(t: Table, k: SessionKey): (r: Option<Record>)
    ensures r.Some? <==> k in KeySet(t)
    ensures r.Some? ==> exists i | 0 <= i < |t| :: t[i] == Entry(k, r.value)
  {
    match IndexOf(t, k)
    case Some(i) => Some(t[i].rec)
    case None => None
  }

  /** The table seen as a plain map from session id to record. */
  function AsMap(t: Table): (m: map<SessionKey, Record>)
    ensures m.Keys == KeySet(t)
  {
    map k | k in KeySet(t) :: Lookup(t, k).value
  }

  /** `latest_objects[session_id] = record`: overwrite in place when the key
      is tracked (a dictionary keeps the key's position), append otherwise. */
  function Put(t: Table, k: SessionKey, r: Record): Table {
    match IndexOf(t, k)
    case Some(i) => t[i := Entry(k, r)]
    case None => t + [Entry(k, r)]
  }

  /** `latest_objects.pop(session_id, None)`: drop the key's entry, if any. */
  function Pop(t: Table, k: SessionKey): Table {
    match IndexOf(t, k)
    case Some(i) => t[..i] + t[i + 1..]
    case None => t
  }

  /** With distinct keys, the entry holding `k` is the one `IndexOf` finds. */
  lemma IndexOfUnique(t: Table, i: nat, k: SessionKey)
    requires KeysUnique(t)
    requires i < |t| && t[i].key == k
    ensures IndexOf(t, k) == Some(i)
  {
  }

  lemma LookupAt(t: Table, i: nat)
    requires KeysUnique(t)
    requires i < |t|
    ensures Lookup(t, t[i].key) == Some(t[i].rec)
  {
    IndexOfUnique(t, i, t[i].key);
  }

  lemma PutKeys(t: Table, k: SessionKey, r: Record)
    requires KeysUnique(t)
    ensures KeysUnique(Put(t, k, r))
    ensures KeySet(Put(t, k, r)) == KeySet(t) + {k}
  {
    var t' := Put(t, k, r);
    match IndexOf(t, k)
    case Some(i) =>
      assert forall j | 0 <= j < |t| :: t'[j].key == t[j].key;
      assert KeySet(t') == KeySet(t);
    case None =>
      assert forall j | 0 <= j < |t| :: t'[j] == t[j];
      assert t'[|t|].key == k;
      assert KeySet(t') == KeySet(t) + {k};
  }

  lemma LookupPut(t: Table, k: SessionKey, r: Record, k': SessionKey)
    requires KeysUnique(t)
    ensures Lookup(Put(t, k, r), k') == if k' == k then Some(r) else Lookup(t, k')
  {
    PutKeys(t, k, r);
    var t' := Put(t, k, r);
    if k' in KeySet(t') {
      var j :| 0 <= j < |t'| && t'[j].key == k';
      LookupAt(t', j);
      if k' != k {
        assert j < |t| && t[j] == t'[j];
        LookupAt(t, j);
      }
    }
  }

  /** An add or update stores the record under its session id, overwriting
      any previous entry, and leaves every other entry as it was. */
  lemma PutSpec(t: Table, k: SessionKey, r: Record)
    requires KeysUnique(t)
    ensures KeysUnique(Put(t, k, r))
    ensures AsMap(Put(t, k, r)) == AsMap(t)[k := r]
  {
    PutKeys(t, k, r);
    forall k' | k' in KeySet(Put(t, k, r))
      ensures AsMap(Put(t, k, r))[k'] == AsMap(t)[k := r][k']
    {
      LookupPut(t, k, r, k');
    }
  }

  /** The entries left by a removal at position `i`. */
  lemma PopShift(t: Table, k: SessionKey, i: nat)
    requires IndexOf(t, k) == Some(i)
    ensures |Pop(t, k)| == |t| - 1
    ensures forall j | 0 <= j < |Pop(t, k)| :: Pop(t, k)[j] == if j < i then t[j] else t[j + 1]
  {
  }

  /** Dropping one entry cannot make two keys equal. */
  lemma RemoveAtUnique(t: Table, i: nat)
    requires KeysUnique(t)
    requires i < |t|
    ensures KeysUnique(t[..i] + t[i + 1..])
  {
    var t' := t[..i] + t[i + 1..];
    forall a, b | 0 <= a < b < |t'| ensures t'[a].key != t'[b].key {
      var a' := if a < i then a else a + 1;
      var b' := if b < i then b else b + 1;
      assert t'[a] == t[a'];
      assert t'[b] == t[b'];
    }
  }

  lemma PopUnique(t: Table, k: SessionKey, i: nat)
    requires KeysUnique(t)
    requires IndexOf(t, k) == Some(i)
    ensures KeysUnique(Pop(t, k))
  {
    RemoveAtUnique(t, i);
  }

  lemma PopKeysShrink(t: Table, k: SessionKey, i: nat)
    requires KeysUnique(t)
    requires IndexOf(t, k) == Some(i)
    ensures KeySet(Pop(t, k)) <= KeySet(t) - {k}
  {
    var t' := Pop(t, k);
    PopShift(t, k, i);
    forall k' | k' in KeySet(t') ensures k' in KeySet(t) - {k} {
      var j :| 0 <= j < |t'| && t'[j].key == k';
      var j' := if j < i then j else j + 1;
      assert t'[j] == t[j'] && j' != i;
    }
  }

  lemma PopKeysKeep(t: Table, k: SessionKey, i: nat)
    requires IndexOf(t, k) == Some(i)
    ensures KeySet(t) - {k} <= KeySet(Pop(t, k))
  {
    var t' := Pop(t, k);
    assert t' == t[..i] + t[i + 1..];
    forall k' | k' in KeySet(t) - {k} ensures k' in KeySet(t') {
      var j :| 0 <= j < |t| && t[j].key == k';
      if j < i {
        assert t'[j] == t[..i][j] == t[j];
      } else {
        assert t'[j - 1] == t[i + 1..][j - 1 - i] == t[j];
      }
    }
  }

  lemma PopKeySet(t: Table, k: SessionKey, i: nat)
    requires KeysUnique(t)
    requires IndexOf(t, k) == Some(i)
    ensures KeySet(Pop(t, k)) == KeySet(t) - {k}
  {
    PopKeysShrink(t, k, i);
    PopKeysKeep(t, k, i);
  }

  lemma LookupPop(t: Table, k: SessionKey, k': SessionKey)
    requires KeysUnique(t)
    ensures Lookup(Pop(t, k), k') == if k' == k then None else Lookup(t, k')
  {
    match IndexOf(t, k)
    case None =>
    case Some(i) =>
      PopShift(t, k, i);
      PopKeySet(t, k, i);
      var t' := Pop(t, k);
      if k' in KeySet(t') {
        var j :| 0 <= j < |t'| && t'[j].key == k';
        LookupAt(t', j);
        if j < i { LookupAt(t, j); } else { LookupAt(t, j + 1); }
      }
  }

  /** A remove deletes the session id's entry and leaves every other entry as
      it was; removing an id that is not tracked changes nothing. */
  lemma PopSpec(t: Table, k: SessionKey)
    requires KeysUnique(t)
    ensures KeysUnique(Pop(t, k))
    ensures AsMap(Pop(t, k)) == AsMap(t) - {k}
    ensures k !in KeySet(t) ==> Pop(t, k) == t
  {
    if IndexOf(t, k).Some? {
      PopUnique(t, k, IndexOf(t, k).value);
      PopKeySet(t, k, IndexOf(t, k).value);
    }
    forall k' | k' in KeySet(Pop(t, k))
      ensures AsMap(Pop(t, k))[k'] == (AsMap(t) - {k})[k']
    {
      LookupPop(t, k, k');
    }
  }

  /** Overwriting a tracked session id keeps its place in the iteration
      order, and no other entry moves; a new session id goes last. */
  lemma PutOrder(t: Table, k: SessionKey, r: Record)
    requires KeysUnique(t)
    ensures k in KeySet(t) ==> |Put(t, k, r)| == |t|
    ensures k in KeySet(t) ==>
      forall j | 0 <= j < |t| :: Put(t, k, r)[j] == if t[j].key == k then Entry(k, r) else t[j]
    ensures k !in KeySet(t) ==> Put(t, k, r) == t + [Entry(k, r)]
  {
    if k in KeySet(t) {
      var i := IndexOf(t, k).value;
      forall j | 0 <= j < |t| && t[j].key == k ensures j == i {}
    }
  }

  /** Removing keeps the remaining entries in their relative order. */
  lemma PopOrder(t: Table, k: SessionKey)
    requires KeysUnique(t)
    ensures k in KeySet(t) ==> exists i | 0 <= i < |t| :: t[i].key == k && Pop(t, k) == t[..i] + t[i + 1..]
  {
    if k in KeySet(t) {
      var i := IndexOf(t, k).value;
      assert t[i].key == k && Pop(t, k) == t[..i] + t[i + 1..];
    }
  }
}
