/**
 * How `update_product` (PUT /products/{id}) reconciles a product's stored
 * variants with the incoming list: delete the ones whose ids are missing
 * from it, overwrite the ones it names by id, insert the rest as new rows.
 */
module Reconcile {
  import opened Wrappers
  import opened Schema

  /** `current_ids`: the ids of the product's variants. */
  function Current(vs: map<int, Variant>, pid: int): set<int>
  {
    set k | k in vs && vs[k].productId == pid
  }

  /** `incoming_ids`: every id the incoming list carries, zero and foreign ids included. */
  function IncomingIds(incoming: seq<VariantUpdate>): set<int>
  {
    if incoming == [] then {}
    else
      var e := incoming[|incoming| - 1];
      IncomingIds(incoming[..|incoming| - 1]) + (if e.id.Some? then {e.id.value} else {})
  }

  /** `if v_data.id and v_data.id in current_ids`: the entry overwrites a variant of the product. */
  predicate UpdatesExisting(e: VariantUpdate, current: set<int>)
  {
    e.id.Some? && e.id.value != 0 && e.id.value in current
  }

  function Overwrite(v: Variant, e: VariantUpdate): Variant
  {
    v.(color := e.color, size := e.size, price := e.price, stock := e.stock)
  }

  function NewVariant(id: int, pid: int, e: VariantUpdate): Variant
  {
    Variant(id, pid, e.color, e.size, e.price, e.stock)
  }

  /** The entries inserted as new variants, in list order. */
  function Inserted(incoming: seq<VariantUpdate>, current: set<int>): seq<VariantUpdate>
  {
    if incoming == [] then []
    else
      var e := incoming[|incoming| - 1];
      Inserted(incoming[..|incoming| - 1], current) + (if UpdatesExisting(e, current) then [] else [e])
  }

  /** The last entry of the list carrying id `k`. */
  function LastWithId(incoming: seq<VariantUpdate>, k: int): Option<VariantUpdate>
  {
    if incoming == [] then None
    else if incoming[|incoming| - 1].id == Some(k) then Some(incoming[|incoming| - 1])
    else LastWithId(incoming[..|incoming| - 1], k)
  }

  /**
   * The loop over the incoming list, after the deletion: each entry
   * overwrites its variant or is inserted under the next free id.
   */
  function ApplyEntries(vs: map<int, Variant>, pid: int, current: set<int>, incoming: seq<VariantUpdate>, next: int)
    : (r: (map<int, Variant>, int))
    requires current * IncomingIds(incoming) <= vs.Keys
    requires forall k | k in vs :: k < next
    ensures vs.Keys <= r.0.Keys && next <= r.1
    ensures forall k | k in r.0 :: k < r.1
  {
    if incoming == [] then (vs, next)
    else
      var (m, n) := ApplyEntries(vs, pid, current, incoming[..|incoming| - 1], next);
      var e := incoming[|incoming| - 1];
      if UpdatesExisting(e, current) then (m[e.id.value := Overwrite(m[e.id.value], e)], n)
      else (m[n := NewVariant(n, pid, e)], n + 1)
  }

  /** The variants after `update_product`, and the next free id. */
  function Reconcile(vs: map<int, Variant>, pid: int, incoming: seq<VariantUpdate>, next: int)
    : (map<int, Variant>, int)
    requires forall k | k in vs :: k < next
  {
    var current := Current(vs, pid);
    ApplyEntries(vs - (current - IncomingIds(incoming)), pid, current, incoming, next)
  }

  /**
   * The loop keeps every variant, overwrites with its last entry each
   * variant of the product that an entry names by a non-zero id, leaves the
   * others as they were, and puts the inserted entries under consecutive
   * fresh ids; nothing else is added.
   */
  lemma {:induction false} ApplyEntriesEffect(
    vs: map<int, Variant>, pid: int, current: set<int>, incoming: seq<VariantUpdate>, next: int)
    requires current * IncomingIds(incoming) <= vs.Keys
    requires forall k | k in vs :: k < next
    ensures var (r, n) := ApplyEntries(vs, pid, current, incoming, next);
      && n == next + |Inserted(incoming, current)|
      && (forall k :: k in r <==> k in vs || next <= k < n)
      && (forall k | k in vs ::
            r[k] == if k != 0 && k in current && LastWithId(incoming, k).Some?
                    then Overwrite(vs[k], LastWithId(incoming, k).value) else vs[k])
      && (forall j | 0 <= j < n - next :: r[next + j] == NewVariant(next + j, pid, Inserted(incoming, current)[j]))
  {
    if incoming != [] {
      var p, e := incoming[..|incoming| - 1], incoming[|incoming| - 1];
      ApplyEntriesEffect(vs, pid, current, p, next);
      var (m, n0) := ApplyEntries(vs, pid, current, p, next);
      var (r, n) := ApplyEntries(vs, pid, current, incoming, next);
      if UpdatesExisting(e, current) {
        assert r == m[e.id.value := Overwrite(m[e.id.value], e)] && n == n0;
      } else {
        assert r == m[n0 := NewVariant(n0, pid, e)] && n == n0 + 1;
        forall j | 0 <= j < n - next
          ensures r[next + j] == NewVariant(next + j, pid, Inserted(incoming, current)[j])
        {
          if j < n0 - next {
            assert Inserted(incoming, current)[j] == Inserted(p, current)[j];
          }
        }
      }
    }
  }

  /** The ids of a prefix of the list are among the ids of the whole list. */
  lemma {:induction false} IncomingIdsPrefix(incoming: seq<VariantUpdate>, i: nat)
    requires i <= |incoming|
    ensures IncomingIds(incoming[..i]) <= IncomingIds(incoming)
  {
    if i < |incoming| {
      var p := incoming[..|incoming| - 1];
      assert incoming[..i] == p[..i];
      IncomingIdsPrefix(p, i);
    } else {
      assert incoming[..i] == incoming;
    }
  }

  /** Every id the list carries has a last entry carrying it. */
  lemma {:induction false} IncomingIdsHaveEntries(incoming: seq<VariantUpdate>, k: int)
    requires k in IncomingIds(incoming)
    ensures LastWithId(incoming, k).Some? && LastWithId(incoming, k).value.id == Some(k)
  {
    var e := incoming[|incoming| - 1];
    if e.id != Some(k) {
      IncomingIdsHaveEntries(incoming[..|incoming| - 1], k);
    }
  }

  /**
   * The outcome of `update_product` on the variants:
   * variants of other products are untouched; a variant of the product
   * survives exactly when the list carries its id, and then holds the
   * colour, size, price and stock of the last entry carrying it (an id 0
   * survives unchanged); every other entry (no id, id 0, or an id that is
   * not the product's) becomes a new variant of the product under a fresh
   * consecutive id; and nothing else is in the table.
   */
  lemma ReconcileEffect(vs: map<int, Variant>, pid: int, incoming: seq<VariantUpdate>, next: int)
    requires forall k | k in vs :: k < next
    ensures var (r, n) := Reconcile(vs, pid, incoming, next);
      && (forall k | k in vs && vs[k].productId != pid :: k in r && r[k] == vs[k])
      && (forall k | k in vs && vs[k].productId == pid :: k in r <==> k in IncomingIds(incoming))
      && (forall k | k in vs && vs[k].productId == pid && k in IncomingIds(incoming) ::
            LastWithId(incoming, k).Some? &&
            r[k] == if k != 0 then Overwrite(vs[k], LastWithId(incoming, k).value) else vs[k])
      && n == next + |Inserted(incoming, Current(vs, pid))|
      && (forall k :: k in r <==> (k in vs && (vs[k].productId != pid || k in IncomingIds(incoming))) || next <= k < n)
      && (forall j | 0 <= j < n - next ::
            r[next + j] == NewVariant(next + j, pid, Inserted(incoming, Current(vs, pid))[j]))
  {
    var current := Current(vs, pid);
    var kept := vs - (current - IncomingIds(incoming));
    ApplyEntriesEffect(kept, pid, current, incoming, next);
    forall k | k in IncomingIds(incoming) {
      IncomingIdsHaveEntries(incoming, k);
    }
  }

  /**
   * The inventory editor sends its rows without ids, so saving a product
   * deletes all its variants and inserts every row as a new one.
   */
  lemma {:induction false} EntriesWithoutIdsReplaceAll(vs: map<int, Variant>, pid: int, incoming: seq<VariantUpdate>)
    requires forall i | 0 <= i < |incoming| :: incoming[i].id.None?
    ensures IncomingIds(incoming) == {}
    ensures Inserted(incoming, Current(vs, pid)) == incoming
  {
    if incoming != [] {
      var p := incoming[..|incoming| - 1];
      forall i | 0 <= i < |p| ensures p[i].id.None? { assert p[i] == incoming[i]; }
      EntriesWithoutIdsReplaceAll(vs, pid, p);
      assert p + [incoming[|incoming| - 1]] == incoming;
    }
  }
}
