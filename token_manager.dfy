/**
  The per-context token store: a table from a context (an HTTP request) to that
  context's own dictionary of tokens (database name or container code -> token).
  The dictionaries are objects, as in the source, so a dictionary handed out by
  the snapshot operation is the stored one and later writes show through it.
 */
module TokenManager {
  import opened Wrappers

  /** A mutable token dictionary (a `ConcurrentDictionary` used sequentially). */
  class TokenDictionary<K(==), V> {
    var entries: map<K, V>

    constructor (initial: map<K, V>)
      ensures entries == initial
    {
      entries := initial;
    }

    /** `AddOrUpdate(key, value, (_, _) => value)`: insert or overwrite. */
    method AddOrUpdate(key: K, value: V)
      modifies this
      ensures entries == old(entries)[key := value]
    {
      entries := entries[key := value];
    }
  }

  /** Raised by `ConditionalWeakTable.Add` when the context already has a dictionary. */
  datatype SeedError = ContextAlreadySeeded

  /** One write a request handler makes to the store: `Set(context, key, value)`. */
  datatype Write<C, K, V> = Write(context: C, key: K, value: V)

  /** The store's abstract value after `Set(c, k, v)`. */
  function SetInView<C(==), K(==), V>(view: map<C, map<K, V>>, c: C, k: K, v: V): map<C, map<K, V>>
  {
    view[c := (if c in view then view[c] else map[])[k := v]]
  }

  /** A lookup in the store's abstract value: none for a missing context or key. */
  function Lookup<C(==), K(==), V>(view: map<C, map<K, V>>, c: C, k: K): (r: Option<V>)
    ensures r.Some? <==> c in view && k in view[c]
  {
    if c in view && k in view[c] then Some(view[c][k]) else None
  }

  /**
    After `Set(c, k, v)` the entry (c, k) holds `v`, whether or not the context
    had a dictionary, and every other entry reads as before.
   */
  lemma LookupAfterSet<C, K, V>(view: map<C, map<K, V>>, c: C, k: K, v: V, c': C, k': K)
    ensures Lookup(SetInView(view, c, k, v), c', k') == if c' == c && k' == k then Some(v) else Lookup(view, c', k')
  {
  }

  /** The store's abstract value after a sequence of writes, first to last. */
  function ApplyWrites<C(==), K(==), V>(view: map<C, map<K, V>>, writes: seq<Write<C, K, V>>): map<C, map<K, V>>
  {
    if writes == [] then view
    else
      var w := writes[|writes| - 1];
      SetInView(ApplyWrites(view, writes[..|writes| - 1]), w.context, w.key, w.value)
  }

  /** One context's dictionary after those of `writes` that are addressed to it. */
  function ContextAfterWrites<C(==), K(==), V>(tokens: map<K, V>, c: C, writes: seq<Write<C, K, V>>): map<K, V>
  {
    if writes == [] then tokens
    else
      var w := writes[|writes| - 1];
      var before := ContextAfterWrites(tokens, c, writes[..|writes| - 1]);
      if w.context == c then before[w.key := w.value] else before
  }

  /**
    Writes for other contexts never reach a context's dictionary: what a context
    holds after any interleaving of writes depends only on its own writes.
   */
  lemma {:induction false} WritesAreIsolatedPerContext<C, K, V>(
    view: map<C, map<K, V>>, c: C, writes: seq<Write<C, K, V>>)
    requires c in view
    ensures c in ApplyWrites(view, writes)
    ensures ApplyWrites(view, writes)[c] == ContextAfterWrites(view[c], c, writes)
  {
    if writes != [] {
      WritesAreIsolatedPerContext(view, c, writes[..|writes| - 1]);
    }
  }

  /** Applying two batches of writes one after the other is applying them as one batch. */
  lemma {:induction false} ApplyWritesConcatenates<C, K, V>(
    view: map<C, map<K, V>>, first: seq<Write<C, K, V>>, second: seq<Write<C, K, V>>)
    ensures ApplyWrites(ApplyWrites(view, first), second) == ApplyWrites(view, first + second)
  {
    if second == [] {
      assert first + second == first;
    } else {
      var all := first + second;
      assert all[..|all| - 1] == first + second[..|second| - 1];
      assert all[|all| - 1] == second[|second| - 1];
      ApplyWritesConcatenates(view, first, second[..|second| - 1]);
    }
  }

  /** Writes never remove a context or a key: the store only grows. */
  lemma {:induction false} WritesOnlyAddKeys<C, K, V>(
    tokens: map<K, V>, c: C, writes: seq<Write<C, K, V>>)
    ensures tokens.Keys <= ContextAfterWrites(tokens, c, writes).Keys
  {
    if writes != [] {
      WritesOnlyAddKeys(tokens, c, writes[..|writes| - 1]);
    }
  }

  /** The last write to a key decides it: later writes to the same key replace earlier ones. */
  lemma {:induction false} LastWriteWins<C, K, V>(
    tokens: map<K, V>, c: C, writes: seq<Write<C, K, V>>, i: nat)
    requires i < |writes| && writes[i].context == c
    requires forall j :: i < j < |writes| ==> writes[j].context != c || writes[j].key != writes[i].key
    ensures writes[i].key in ContextAfterWrites(tokens, c, writes)
    ensures ContextAfterWrites(tokens, c, writes)[writes[i].key] == writes[i].value
  {
    if i < |writes| - 1 {
      var prefix := writes[..|writes| - 1];
      assert forall j :: i < j < |prefix| ==> prefix[j] == writes[j];
      LastWriteWins(tokens, c, prefix, i);
    }
  }

  /**
    `CosmosDbContextSessionTokenManager`: a `ConditionalWeakTable` from context
    to dictionary. `C` is the context, `K` the key (database name or container
    code), `V` the stored token.
   */
  class SessionTokenManager<C(==), K(==), V> {
    var table: map<C, TokenDictionary<K, V>>

    constructor ()
      ensures table == map[] && Valid()
    {
      table := map[];
    }

    /** No two contexts share one dictionary object. */
    ghost predicate Valid()
      reads this
    {
      forall c1, c2 :: c1 in table && c2 in table && c1 != c2 ==> table[c1] != table[c2]
    }

    /** The store as a value: each context's current entries. */
    ghost function View(): map<C, map<K, V>>
      reads this, table.Values
    {
      map c | c in table :: table[c].entries
    }

    /**
      `GetSessionTokenForContextAndDatabase`: none when the context has no
      dictionary, otherwise that dictionary's entry for the key, if any.
     */
    function GetSessionToken(c: C, k: K): (r: Option<V>)
      reads this, table.Values
      ensures r.Some? <==> c in table && k in table[c].entries
      ensures r.Some? ==> r.value == table[c].entries[k]
    {
      if c in table && k in table[c].entries then Some(table[c].entries[k]) else None
    }

    /**
      `SetSessionTokenForContextAndDatabase`: `GetOrCreateValue(c)` makes the
      context's dictionary when it is absent, then the key is overwritten
      (last write wins, no merge).
     */
    method SetSessionToken(c: C, k: K, v: V)
      modifies this, if c in table then {table[c]} else {}
      ensures c in old(table) ==> table == old(table) && table[c].entries == old(table[c].entries)[k := v]
      ensures c !in old(table) ==> c in table && fresh(table[c]) && table == old(table)[c := table[c]] && table[c].entries == map[k := v]
      ensures old(Valid()) ==> Valid() && View() == SetInView(old(View()), c, k, v)
    {
      if c !in table {
        var d := new TokenDictionary(map[]);
        table := table[c := d];
      }
      table[c].AddOrUpdate(k, v);
    }

    /**
      `SetSessionTokensForContext`: `ConditionalWeakTable.Add`, which rejects
      a context that already has a dictionary.
     */
    method SetSessionTokensForContext(c: C, d: TokenDictionary<K, V>) returns (r: Outcome<SeedError>)
      modifies this
      ensures c in old(table) ==> r == Fail(ContextAlreadySeeded) && table == old(table)
      ensures c !in old(table) ==> r == Pass && table == old(table)[c := d]
      ensures old(Valid()) && d !in old(table.Values) ==> Valid()
      ensures c !in old(table) && old(Valid()) && d !in old(table.Values) ==> View() == old(View())[c := d.entries]
    {
      if c in table {
        return Fail(ContextAlreadySeeded);
      }
      table := table[c := d];
      r := Pass;
    }

    /**
      `TryGetSessionTokensForHttpContext`: true iff the context has a dictionary,
      and then the dictionary itself (not a copy).
     */
    method TryGetSessionTokensForHttpContext(c: C) returns (found: bool, d: TokenDictionary?<K, V>)
      ensures found <==> c in table
      ensures found ==> d == table[c]
    {
      found := c in table;
      d := if found then table[c] else null;
    }
  }

  /** `GetSessionToken` is a lookup in the store's abstract value. */
  lemma GetSessionTokenIsLookup<C, K, V>(manager: SessionTokenManager<C, K, V>, c: C, k: K)
    ensures manager.GetSessionToken(c, k) == Lookup(manager.View(), c, k)
  {
  }

  /**
    The dictionary handed out by the snapshot is the stored one: a `Set` for
    the same context after the snapshot shows through it.
   */
  method SnapshotSeesLaterSets<C(==), K(==), V>(manager: SessionTokenManager<C, K, V>, c: C, k: K, v: V)
    returns (found: bool, snapshot: TokenDictionary?<K, V>)
    requires manager.Valid() && c in manager.table
    modifies manager, manager.table.Values
    ensures found && snapshot != null && k in snapshot.entries && snapshot.entries[k] == v
  {
    found, snapshot := manager.TryGetSessionTokensForHttpContext(c);
    manager.SetSessionToken(c, k, v);
  }

  /** Runs the writes a request handler makes, through `SetSessionToken`. */
  method ApplyWritesToStore<C(==), K(==), V>(manager: SessionTokenManager<C, K, V>, writes: seq<Write<C, K, V>>)
    requires manager.Valid()
    modifies manager, manager.table.Values
    ensures manager.Valid()
    ensures manager.View() == ApplyWrites(old(manager.View()), writes)
    ensures forall d :: d in manager.table.Values ==> d in old(manager.table.Values) || fresh(d)
  {
    var i := 0;
    while i < |writes|
      invariant 0 <= i <= |writes|
      invariant manager.Valid()
      invariant manager.View() == ApplyWrites(old(manager.View()), writes[..i])
      invariant forall d :: d in manager.table.Values ==> d in old(manager.table.Values) || fresh(d)
    {
      var w := writes[i];
      manager.SetSessionToken(w.context, w.key, w.value);
      assert writes[..i + 1][..i] == writes[..i];
      i := i + 1;
    }
    assert writes[..i] == writes;
  }
}
