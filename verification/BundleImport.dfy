/**
  One section of a bundle import, for any kind of child row: look labels up among the category's current rows, then
  keep, replace, overwrite or insert. The lookup is built once, before the first item, and never refreshed.
 */
module BundleImport {
  import opened Common
  import opened Versioning

  /** What an item does to the row its key names. */
  datatype Action<+B> = Keep | Replace(body: B) | Overwrite(body: B) | Fail

  /**
    A section: the match keys of items and rows (blank keys are never matched), what an item does to a matching row,
    the row an unmatched item becomes (nothing if the service raises), and how a row is exported.
   */
  datatype Section<!I, !B, !M> = Section(
    itemKey: I -> string,
    rowKey: B -> string,
    react: (B, I) -> Action<B>,
    create: I -> Option<(B, M)>,
    dump: (B, M) -> I)

  /** A section of versioned rows never overwrites. */
  ghost predicate NeverOverwrites<I(!new), B(!new), M>(sec: Section<I, B, M>) {
    forall b, i :: !sec.react(b, i).Overwrite?
  }

  /** Replacing or overwriting keeps a row's key, and an inserted row gets its item's key. */
  ghost predicate KeepsKeys<I(!new), B(!new), M>(sec: Section<I, B, M>) {
    && (forall b, i :: sec.react(b, i).Replace? ==> sec.rowKey(sec.react(b, i).body) == sec.rowKey(b))
    && (forall b, i :: sec.react(b, i).Overwrite? ==> sec.rowKey(sec.react(b, i).body) == sec.rowKey(b))
    && (forall i :: sec.itemKey(i) != "" && sec.create(i).Some? ==> sec.rowKey(sec.create(i).value.0) == sec.itemKey(i))
  }

  /**
    An exported row has its key, re-creates the row, and is exported again as the same item. A row keeps two
    exports only if their rows would keep each other's.
   */
  ghost predicate DumpsFaithfully<I(!new), B(!new), M(!new)>(sec: Section<I, B, M>) {
    && (forall b, m :: sec.itemKey(sec.dump(b, m)) == sec.rowKey(b))
    && (forall b, m :: sec.create(sec.dump(b, m)) == Some((b, m)))
    && (forall b, m, c, n, d :: sec.react(d, sec.dump(b, m)).Keep? && sec.react(d, sec.dump(c, n)).Keep? ==>
          sec.react(b, sec.dump(c, n)).Keep?)
    && (forall b, c, n :: !sec.react(b, sec.dump(c, n)).Fail?)
  }

  /** Row `id` is the category's current row for the key. */
  predicate Holds<I, B, M>(sec: Section<I, B, M>, t: Table<B, M>, cat: nat, key: string, id: nat) {
    id < |t.rows| && t.rows[id].owner == cat && t.rows[id].Current() && sec.rowKey(t.rows[id].body) == key
  }

  /** No two current rows of the category share a key that is not blank. */
  ghost predicate DistinctRows<I, B, M>(sec: Section<I, B, M>, t: Table<B, M>, cat: nat) {
    forall key, i: nat, j: nat :: key != "" && Holds(sec, t, cat, key, i) && Holds(sec, t, cat, key, j) ==> i == j
  }

  /** No two items share a key that is not blank. */
  ghost predicate DistinctItems<I, B, M>(sec: Section<I, B, M>, items: seq<I>) {
    forall j, k :: 0 <= j < k < |items| && sec.itemKey(items[j]) != "" ==>
      sec.itemKey(items[j]) != sec.itemKey(items[k])
  }

  /** The dictionary from keys to current rows, among the first `n`; a later row shadows an earlier one. */
  function Lookup<I, B, M>(sec: Section<I, B, M>, t: Table<B, M>, cat: nat, n: nat): (m: map<string, nat>)
    requires n <= |t.rows|
    ensures forall key :: key in m ==> m[key] < n && Holds(sec, t, cat, key, m[key])
    ensures forall i: nat, key :: i < n && Holds(sec, t, cat, key, i) ==> key in m && i <= m[key]
  {
    if n == 0 then map[]
    else
      var m := Lookup(sec, t, cat, n - 1);
      var row := t.rows[n - 1];
      if row.owner == cat && row.Current() then m[sec.rowKey(row.body) := n - 1] else m
  }

  /** The table so far, the edits that led to it, and the ids the result reports. */
  datatype Progress<+B, +M> = Progress(
    table: Table<B, M>, edits: seq<Edit<B, M>>, superseded: seq<nat>, added: seq<nat>)

  function Start<B, M>(t: Table<B, M>): Progress<B, M> {
    Progress(t, [], [], [])
  }

  function Do<B, M>(p: Progress<B, M>, e: Edit<B, M>, superseded: seq<nat>, added: seq<nat>): Progress<B, M> {
    Progress(Apply(p.table, e), p.edits + [e], p.superseded + superseded, p.added + added)
  }

  /** One item; nothing when the service raises. */
  function ItemStep<I, B, M>(
    sec: Section<I, B, M>, cat: nat, look: map<string, nat>, p: Progress<B, M>, item: I, at: Time)
    : Option<Progress<B, M>>
  {
    var key := sec.itemKey(item);
    if key == "" then Some(p)
    else if key in look && look[key] < |p.table.rows| then
      var id := look[key];
      match sec.react(p.table.rows[id].body, item)
      case Keep => Some(p)
      case Replace(body) => Some(Do(p, Supersede(id, body, at), [id], [|p.table.rows|]))
      case Overwrite(body) => Some(Do(p, Rewrite(id, body), [], []))
      case Fail => None
    else
      match sec.create(item)
      case None => None
      case Some((body, side)) => Some(Do(p, Insert(cat, body, side), [], [|p.table.rows|]))
  }

  /** The first items of the section, against a fixed lookup; the clock is read once per item. */
  function Fold<I, B, M>(
    sec: Section<I, B, M>, cat: nat, look: map<string, nat>, p: Progress<B, M>, items: seq<I>, clock: nat -> Time)
    : Option<Progress<B, M>>
  {
    if items == [] then Some(p)
    else
      var n := |items| - 1;
      match Fold(sec, cat, look, p, items[..n], clock)
      case None => None
      case Some(q) => ItemStep(sec, cat, look, q, items[n], clock(n))
  }

  function Import<I, B, M>(
    sec: Section<I, B, M>, cat: nat, t: Table<B, M>, items: seq<I>, clock: nat -> Time): Option<Progress<B, M>>
  {
    Fold(sec, cat, Lookup(sec, t, cat, |t.rows|), Start(t), items, clock)
  }

  /** The loop the service runs over the items of a section. */
  method ImportItems<I, B, M>(
    sec: Section<I, B, M>, cat: nat, t: Table<B, M>, items: seq<I>, clock: nat -> Time)
    returns (r: Option<Progress<B, M>>)
    ensures r == Import(sec, cat, t, items, clock)
  {
    var look := Lookup(sec, t, cat, |t.rows|);
    var p := Start(t);
    for n := 0 to |items|
      invariant Fold(sec, cat, look, Start(t), items[..n], clock) == Some(p)
    {
      assert items[..n + 1][..n] == items[..n];
      var step := ItemStep(sec, cat, look, p, items[n], clock(n));
      if step.None? {
        FoldFailsForGood(sec, cat, look, Start(t), items, clock, n + 1);
        return None;
      }
      p := step.value;
    }
    assert items[..|items|] == items;
    return Some(p);
  }

  lemma FoldAppend<I, B, M>(
    sec: Section<I, B, M>, cat: nat, look: map<string, nat>, p: Progress<B, M>, items: seq<I>, item: I,
    clock: nat -> Time)
    ensures Fold(sec, cat, look, p, items + [item], clock) ==
            (match Fold(sec, cat, look, p, items, clock)
             case None => None
             case Some(q) => ItemStep(sec, cat, look, q, item, clock(|items|)))
  {
    assert (items + [item])[..|items|] == items;
  }

  lemma {:induction false} FoldFailsForGood<I, B, M>(
    sec: Section<I, B, M>, cat: nat, look: map<string, nat>, p: Progress<B, M>, items: seq<I>, clock: nat -> Time,
    n: nat)
    requires n <= |items| && Fold(sec, cat, look, p, items[..n], clock).None?
    ensures Fold(sec, cat, look, p, items, clock).None?
    decreases |items| - n
  {
    if n < |items| {
      assert items[..n + 1][..n] == items[..n];
      FoldFailsForGood(sec, cat, look, p, items, clock, n + 1);
    } else {
      assert items[..n] == items;
    }
  }

  // ------------------------------------------------------------------------------------------
  // An import is a run of edits
  // ------------------------------------------------------------------------------------------

  /** The recorded edits produce the table, which only grows. */
  lemma {:induction false} ImportIsReplay<I, B, M>(
    sec: Section<I, B, M>, cat: nat, look: map<string, nat>, t: Table<B, M>, items: seq<I>, clock: nat -> Time)
    requires Fold(sec, cat, look, Start(t), items, clock).Some?
    ensures var p := Fold(sec, cat, look, Start(t), items, clock).value;
            && p.table == Replay(t, p.edits) && |t.rows| <= |p.table.rows|
  {
    if items != [] {
      var n := |items| - 1;
      ImportIsReplay(sec, cat, look, t, items[..n], clock);
      var q := Fold(sec, cat, look, Start(t), items[..n], clock).value;
      var p := Fold(sec, cat, look, Start(t), items, clock).value;
      if p != q {
        assert p.edits[..|p.edits| - 1] == q.edits;
      }
    }
  }

  /** Every edit of a versioned import is an insert or a supersede, stamped by a reading of the clock. */
  lemma {:induction false} ImportEdits<I(!new), B(!new), M>(
    sec: Section<I, B, M>, cat: nat, look: map<string, nat>, t: Table<B, M>, items: seq<I>, clock: nat -> Time)
    requires NeverOverwrites(sec) && Fold(sec, cat, look, Start(t), items, clock).Some?
    ensures forall e :: e in Fold(sec, cat, look, Start(t), items, clock).value.edits ==>
              e.Insert? || (e.Supersede? && exists n: nat :: n < |items| && e.at == clock(n))
  {
    if items != [] {
      var n := |items| - 1;
      ImportEdits(sec, cat, look, t, items[..n], clock);
      var q := Fold(sec, cat, look, Start(t), items[..n], clock).value;
      var p := Fold(sec, cat, look, Start(t), items, clock).value;
      forall e | e in p.edits
        ensures e.Insert? || (e.Supersede? && exists n: nat :: n < |items| && e.at == clock(n))
      {
        if e !in q.edits {
          assert e.Supersede? ==> e.at == clock(n);
        }
      }
    }
  }

  /** A versioned import replaces only rows that were current before it. */
  lemma {:induction false} ImportSupersedesCurrent<I(!new), B(!new), M>(
    sec: Section<I, B, M>, cat: nat, t: Table<B, M>, items: seq<I>, clock: nat -> Time)
    requires NeverOverwrites(sec) && Import(sec, cat, t, items, clock).Some?
    ensures forall e :: e in Import(sec, cat, t, items, clock).value.edits && e.Supersede? ==>
              e.id < |t.rows| && t.rows[e.id].Current()
  {
    if items != [] {
      var n, look := |items| - 1, Lookup(sec, t, cat, |t.rows|);
      ImportSupersedesCurrent(sec, cat, t, items[..n], clock);
      var key := sec.itemKey(items[n]);
      assert key in look ==> Holds(sec, t, cat, key, look[key]);
    }
  }

  // ------------------------------------------------------------------------------------------
  // What an import adds and reports
  // ------------------------------------------------------------------------------------------

  /** The item is why row `j` of `u` was added: it replaced the last row of its key, or its key was unknown. */
  ghost predicate Explains<I, B, M>(
    sec: Section<I, B, M>, cat: nat, t: Table<B, M>, u: Table<B, M>, j: nat, item: I)
    requires j < |u.rows| == |u.prior|
  {
    var look, key, row := Lookup(sec, t, cat, |t.rows|), sec.itemKey(item), u.rows[j];
    && key != "" && sec.rowKey(row.body) == key
    && (match u.prior[j]
        case Some(p) =>
          && key in look && look[key] == p && Holds(sec, t, cat, key, p)
          && sec.react(t.rows[p].body, item) == Replace(row.body)
          && row.version == t.rows[p].version + 1 && row.owner == cat
        case None => key !in look && sec.create(item).Some? && sec.create(item).value.0 == row.body
                     && row.version == 1 && row.owner == cat)
  }

  ghost predicate Explained<I, B, M>(
    sec: Section<I, B, M>, cat: nat, t: Table<B, M>, u: Table<B, M>, items: seq<I>, j: nat)
    requires j < |u.rows| == |u.prior|
  {
    exists i :: i in items && Explains(sec, cat, t, u, j, i)
  }

  /** Every row an import adds is explained by one of its items. */
  ghost predicate AllExplained<I, B, M>(
    sec: Section<I, B, M>, cat: nat, t: Table<B, M>, u: Table<B, M>, items: seq<I>)
  {
    && |t.rows| <= |u.rows| == |u.prior|
    && forall j: nat :: |t.rows| <= j < |u.rows| ==> Explained(sec, cat, t, u, items, j)
  }

  lemma ExplanationsStay<I, B, M>(
    sec: Section<I, B, M>, cat: nat, t: Table<B, M>, u: Table<B, M>, v: Table<B, M>, items: seq<I>, item: I)
    requires AllExplained(sec, cat, t, u, items)
    requires |u.rows| <= |v.rows| == |v.prior|
    requires forall j: nat :: |t.rows| <= j < |u.rows| ==>
               v.prior[j] == u.prior[j] && v.rows[j].body == u.rows[j].body
               && v.rows[j].version == u.rows[j].version && v.rows[j].owner == u.rows[j].owner
    requires forall j: nat :: |u.rows| <= j < |v.rows| ==> Explains(sec, cat, t, v, j, item)
    ensures AllExplained(sec, cat, t, v, items + [item])
  {
    forall j: nat | |t.rows| <= j < |v.rows| ensures Explained(sec, cat, t, v, items + [item], j) {
      if j < |u.rows| {
        assert Explained(sec, cat, t, u, items, j);
        var i :| i in items && Explains(sec, cat, t, u, j, i);
        assert i in items + [item] && Explains(sec, cat, t, v, j, i);
      } else {
        assert item in items + [item];
      }
    }
  }

  lemma {:induction false} AddedRowsAreExplained<I(!new), B(!new), M>(
    sec: Section<I, B, M>, cat: nat, t: Table<B, M>, items: seq<I>, clock: nat -> Time)
    requires KeepsKeys(sec) && NeverOverwrites(sec) && |t.rows| == |t.prior|
    requires Import(sec, cat, t, items, clock).Some?
    ensures AllExplained(sec, cat, t, Import(sec, cat, t, items, clock).value.table, items)
  {
    if items != [] {
      var n, look := |items| - 1, Lookup(sec, t, cat, |t.rows|);
      AddedRowsAreExplained(sec, cat, t, items[..n], clock);
      var p, item := Import(sec, cat, t, items[..n], clock).value, items[n];
      var key := sec.itemKey(item);
      if key in look && key != "" {
        LookedUpPart(sec, cat, t, items[..n], clock, key);
      }
      ExplanationsStay(sec, cat, t, p.table, Import(sec, cat, t, items, clock).value.table, items[..n], item);
      assert items == items[..n] + [item];
    }
  }

  /** A looked-up row keeps its body, version and owner. */
  lemma {:induction false} LookedUpPart<I(!new), B(!new), M>(
    sec: Section<I, B, M>, cat: nat, t: Table<B, M>, items: seq<I>, clock: nat -> Time, key: string)
    requires NeverOverwrites(sec) && |t.rows| == |t.prior| && Import(sec, cat, t, items, clock).Some?
    requires key in Lookup(sec, t, cat, |t.rows|)
    ensures var look, u := Lookup(sec, t, cat, |t.rows|), Import(sec, cat, t, items, clock).value.table;
            && look[key] < |t.rows| <= |u.rows| && Holds(sec, t, cat, key, look[key])
            && SameContent(u.rows[look[key]], t.rows[look[key]])
  {
    var look := Lookup(sec, t, cat, |t.rows|);
    ImportIsReplay(sec, cat, look, t, items, clock);
    ImportEdits(sec, cat, look, t, items, clock);
    var edits := Import(sec, cat, t, items, clock).value.edits;
    assert NoRewrites(edits) by {
      forall k | 0 <= k < |edits| ensures !edits[k].Rewrite? {
        assert edits[k] in edits;
      }
    }
    assert Holds(sec, t, cat, key, look[key]);
    RowsAreFrozen(t, edits, look[key]);
  }

  /**
    What is reported is what was done: the ids listed as added are those of the new rows, in order, and the ids listed
    as superseded are those of the rows that were current before and are not any more.
   */
  ghost predicate Reported<B, M>(t: Table<B, M>, p: Progress<B, M>) {
    && |t.rows| <= |p.table.rows| && |p.added| == |p.table.rows| - |t.rows|
    && (forall k :: 0 <= k < |p.added| ==> p.added[k] == |t.rows| + k)
    && (forall id: nat :: id in p.superseded <==>
          id < |t.rows| && t.rows[id].Current() && !p.table.rows[id].Current())
    && (forall id: nat :: id < |t.rows| && p.table.rows[id].Current() ==> t.rows[id].Current())
  }

  lemma InsertReported<B, M>(t: Table<B, M>, p: Progress<B, M>, cat: nat, body: B, side: M)
    requires Reported(t, p)
    ensures Reported(t, Do(p, Insert(cat, body, side), [], [|p.table.rows|]))
  {
  }

  lemma SupersedeReported<B, M>(t: Table<B, M>, p: Progress<B, M>, id: nat, body: B, at: Time)
    requires Reported(t, p) && id < |t.rows| && t.rows[id].Current()
    ensures Reported(t, Do(p, Supersede(id, body, at), [id], [|p.table.rows|]))
  {
  }

  lemma RewriteReported<B, M>(t: Table<B, M>, p: Progress<B, M>, id: nat, body: B)
    requires Reported(t, p) && id < |t.rows|
    ensures Reported(t, Do(p, Rewrite(id, body), [], []))
  {
  }

  /** An import reports exactly what it did. */
  lemma {:induction false} ReportsAreExact<I, B, M>(
    sec: Section<I, B, M>, cat: nat, t: Table<B, M>, items: seq<I>, clock: nat -> Time)
    requires Import(sec, cat, t, items, clock).Some?
    ensures Reported(t, Import(sec, cat, t, items, clock).value)
  {
    if items != [] {
      var n, look := |items| - 1, Lookup(sec, t, cat, |t.rows|);
      ReportsAreExact(sec, cat, t, items[..n], clock);
      var p, key := Import(sec, cat, t, items[..n], clock).value, sec.itemKey(items[n]);
      if key != "" {
        if key in look {
          assert Holds(sec, t, cat, key, look[key]);
          match sec.react(p.table.rows[look[key]].body, items[n]) {
            case Keep =>
            case Replace(body) => SupersedeReported(t, p, look[key], body, clock(n));
            case Overwrite(body) => RewriteReported(t, p, look[key], body);
          }
        } else {
          var (body, side) := sec.create(items[n]).value;
          InsertReported(t, p, cat, body, side);
        }
      }
    }
  }

  /** The item would replace the row that its key names in `t`. */
  predicate Replaces<I, B, M>(sec: Section<I, B, M>, t: Table<B, M>, look: map<string, nat>, item: I) {
    && sec.itemKey(item) != "" && sec.itemKey(item) in look && look[sec.itemKey(item)] < |t.rows|
    && sec.react(t.rows[look[sec.itemKey(item)]].body, item).Replace?
  }

  /** Some item with the key would replace the key's row. */
  predicate ReplacesKey<I, B, M>(
    sec: Section<I, B, M>, t: Table<B, M>, look: map<string, nat>, items: seq<I>, key: string)
  {
    items != [] &&
    var n := |items| - 1;
    ReplacesKey(sec, t, look, items[..n], key) || (sec.itemKey(items[n]) == key && Replaces(sec, t, look, items[n]))
  }

  /** Two items of the payload would replace the same row. */
  predicate DoubleChange<I, B, M>(sec: Section<I, B, M>, t: Table<B, M>, look: map<string, nat>, items: seq<I>) {
    items != [] &&
    var n := |items| - 1;
    || DoubleChange(sec, t, look, items[..n])
    || (Replaces(sec, t, look, items[n]) && ReplacesKey(sec, t, look, items[..n], sec.itemKey(items[n])))
  }

  /** One item replaces the row its key names, if it replaces any. */
  lemma ItemOnRow<I(!new), B(!new), M>(
    sec: Section<I, B, M>, cat: nat, look: map<string, nat>, p: Progress<B, M>, item: I, at: Time, id: nat)
    requires NeverOverwrites(sec) && id < |p.table.rows| && ItemStep(sec, cat, look, p, item, at).Some?
    ensures var q, key := ItemStep(sec, cat, look, p, item, at).value, sec.itemKey(item);
            && id < |q.table.rows| && q.table.rows[id].body == p.table.rows[id].body
            && (q.table.rows[id].Current() <==>
                (p.table.rows[id].Current()
                 && !(key != "" && key in look && look[key] == id && sec.react(p.table.rows[id].body, item).Replace?)))
  {
  }

  /** One item makes no edit, or a legal one exactly if it does not replace a row that was replaced before. */
  lemma ItemEdit<I(!new), B(!new), M>(
    sec: Section<I, B, M>, cat: nat, look: map<string, nat>, p: Progress<B, M>, item: I, at: Time)
    requires NeverOverwrites(sec) && ItemStep(sec, cat, look, p, item, at).Some?
    ensures var q, key := ItemStep(sec, cat, look, p, item, at).value, sec.itemKey(item);
            var changes := key != "" && key in look && look[key] < |p.table.rows|
                            && sec.react(p.table.rows[look[key]].body, item).Replace?;
            || (q == p && !changes)
            || (|q.edits| > 0 && q.edits[..|q.edits| - 1] == p.edits
                && (Legal(p.table, q.edits[|q.edits| - 1]) <==> !changes || p.table.rows[look[key]].Current()))
  {
    var q := ItemStep(sec, cat, look, p, item, at).value;
    if q != p {
      assert q.edits[..|q.edits| - 1] == p.edits;
    }
  }

  /** Looked-up rows keep their bodies, and are current until the first item that replaces them. */
  lemma {:induction false} LookedUpRows<I(!new), B(!new), M>(
    sec: Section<I, B, M>, cat: nat, t: Table<B, M>, items: seq<I>, clock: nat -> Time, key: string)
    requires NeverOverwrites(sec) && Import(sec, cat, t, items, clock).Some?
    requires key in Lookup(sec, t, cat, |t.rows|) && key != ""
    ensures var look, u := Lookup(sec, t, cat, |t.rows|), Import(sec, cat, t, items, clock).value.table;
            && look[key] < |u.rows| && u.rows[look[key]].body == t.rows[look[key]].body
            && (u.rows[look[key]].Current() <==> !ReplacesKey(sec, t, look, items, key))
  {
    var look := Lookup(sec, t, cat, |t.rows|);
    if items != [] {
      var n := |items| - 1;
      LookedUpRows(sec, cat, t, items[..n], clock, key);
      ItemOnRow(sec, cat, look, Import(sec, cat, t, items[..n], clock).value, items[n], clock(n), look[key]);
      var other := sec.itemKey(items[n]);
      if other in look && other != "" {
        LookedUpRows(sec, cat, t, items[..n], clock, other);
        assert Holds(sec, t, cat, other, look[other]) && Holds(sec, t, cat, key, look[key]);
      }
    }
  }

  /** A versioned import is a legal run of edits exactly when no two of its items replace the same row. */
  lemma {:induction false} ImportIsLegalIff<I(!new), B(!new), M>(
    sec: Section<I, B, M>, cat: nat, t: Table<B, M>, items: seq<I>, clock: nat -> Time)
    requires NeverOverwrites(sec) && Import(sec, cat, t, items, clock).Some?
    ensures LegalRun(t, Import(sec, cat, t, items, clock).value.edits)
            <==> !DoubleChange(sec, t, Lookup(sec, t, cat, |t.rows|), items)
  {
    var look := Lookup(sec, t, cat, |t.rows|);
    if items != [] {
      var n := |items| - 1;
      ImportIsLegalIff(sec, cat, t, items[..n], clock);
      ImportIsReplay(sec, cat, look, t, items[..n], clock);
      ItemEdit(sec, cat, look, Import(sec, cat, t, items[..n], clock).value, items[n], clock(n));
      if sec.itemKey(items[n]) in look && sec.itemKey(items[n]) != "" {
        LookedUpRows(sec, cat, t, items[..n], clock, sec.itemKey(items[n]));
      }
    }
  }

  /** Distinct items never replace the same row. */
  lemma {:induction false} DistinctItemsChangeOnce<I, B, M>(
    sec: Section<I, B, M>, t: Table<B, M>, look: map<string, nat>, items: seq<I>, key: string)
    requires DistinctItems(sec, items)
    ensures !DoubleChange(sec, t, look, items)
    ensures ReplacesKey(sec, t, look, items, key) ==> exists k :: 0 <= k < |items| && sec.itemKey(items[k]) == key
  {
    if items != [] {
      var n := |items| - 1;
      assert forall k :: 0 <= k < n ==> items[..n][k] == items[k];
      DistinctItemsChangeOnce(sec, t, look, items[..n], key);
      DistinctItemsChangeOnce(sec, t, look, items[..n], sec.itemKey(items[n]));
    }
  }

  // ------------------------------------------------------------------------------------------
  // An import changes nothing exactly when every item keeps its row
  // ------------------------------------------------------------------------------------------

  /** Every item that is not blank finds a row and leaves it as it is. */
  ghost predicate AllKeep<I, B, M>(sec: Section<I, B, M>, t: Table<B, M>, look: map<string, nat>, items: seq<I>) {
    forall k :: 0 <= k < |items| && sec.itemKey(items[k]) != "" ==>
      && sec.itemKey(items[k]) in look && look[sec.itemKey(items[k])] < |t.rows|
      && sec.react(t.rows[look[sec.itemKey(items[k])]].body, items[k]).Keep?
  }

  lemma {:induction false} KeepingChangesNothing<I, B, M>(
    sec: Section<I, B, M>, cat: nat, look: map<string, nat>, t: Table<B, M>, items: seq<I>, clock: nat -> Time)
    requires AllKeep(sec, t, look, items)
    ensures Fold(sec, cat, look, Start(t), items, clock) == Some(Start(t))
  {
    if items != [] {
      var n := |items| - 1;
      KeepingChangesNothing(sec, cat, look, t, items[..n], clock);
      assert sec.itemKey(items[n]) != "" ==> sec.react(t.rows[look[sec.itemKey(items[n])]].body, items[n]).Keep?;
    }
  }

  lemma {:induction false} ChangingNothingKeeps<I(!new), B(!new), M>(
    sec: Section<I, B, M>, cat: nat, look: map<string, nat>, t: Table<B, M>, items: seq<I>, clock: nat -> Time)
    requires NeverOverwrites(sec)
    requires Fold(sec, cat, look, Start(t), items, clock).Some?
    requires |Fold(sec, cat, look, Start(t), items, clock).value.table.rows| == |t.rows|
    ensures AllKeep(sec, t, look, items)
  {
    if items != [] {
      var n := |items| - 1;
      ImportIsReplay(sec, cat, look, t, items[..n], clock);
      ChangingNothingKeeps(sec, cat, look, t, items[..n], clock);
      KeepingChangesNothing(sec, cat, look, t, items[..n], clock);
      forall k | 0 <= k < |items| && sec.itemKey(items[k]) != ""
        ensures sec.itemKey(items[k]) in look && look[sec.itemKey(items[k])] < |t.rows|
        ensures sec.react(t.rows[look[sec.itemKey(items[k])]].body, items[k]).Keep?
      {
        if k < n {
          assert items[..n][k] == items[k];
        }
      }
    }
  }

  /** An import that leaves no more rows than before found a row for every labelled item. */
  lemma {:induction false} NothingAddedAllFound<I, B, M>(
    sec: Section<I, B, M>, cat: nat, look: map<string, nat>, t: Table<B, M>, items: seq<I>, clock: nat -> Time)
    requires Fold(sec, cat, look, Start(t), items, clock).Some?
    requires |Fold(sec, cat, look, Start(t), items, clock).value.table.rows| == |t.rows|
    ensures forall i :: i in items && sec.itemKey(i) != "" ==>
              sec.itemKey(i) in look && look[sec.itemKey(i)] < |t.rows|
  {
    if items != [] {
      var n := |items| - 1;
      ImportIsReplay(sec, cat, look, t, items[..n], clock);
      NothingAddedAllFound(sec, cat, look, t, items[..n], clock);
      assert items == items[..n] + [items[n]];
    }
  }

  // ------------------------------------------------------------------------------------------
  // What an import leaves
  // ------------------------------------------------------------------------------------------

  /** The body the item's row has once the item has been imported into `t`. */
  function Outcome<I, B, M>(sec: Section<I, B, M>, t: Table<B, M>, cat: nat, item: I): Option<B> {
    var look := Lookup(sec, t, cat, |t.rows|);
    if sec.itemKey(item) in look then
      var body := t.rows[look[sec.itemKey(item)]].body;
      match sec.react(body, item)
      case Keep => Some(body)
      case Replace(b) => Some(b)
      case Overwrite(b) => Some(b)
      case Fail => None
    else
      match sec.create(item)
      case None => None
      case Some(made) => Some(made.0)
  }

  /** Key `key` is the key of one of the items. */
  predicate Mentions<I, B, M>(sec: Section<I, B, M>, items: seq<I>, key: string) {
    exists k :: 0 <= k < |items| && sec.itemKey(items[k]) == key
  }

  /** After the items, the category's rows for their keys have the outcomes as bodies, and no other row is touched. */
  ghost predicate Settled<I, B, M>(sec: Section<I, B, M>, t: Table<B, M>, u: Table<B, M>, cat: nat, items: seq<I>) {
    && DistinctRows(sec, u, cat)
    && (forall k :: 0 <= k < |items| && sec.itemKey(items[k]) != "" ==>
          exists id: nat :: Holds(sec, u, cat, sec.itemKey(items[k]), id)
                            && Outcome(sec, t, cat, items[k]) == Some(u.rows[id].body))
    && (forall key, id: nat :: key != "" && !Mentions(sec, items, key) ==>
          (Holds(sec, u, cat, key, id) <==> Holds(sec, t, cat, key, id))
          && (Holds(sec, u, cat, key, id) ==> u.rows[id].body == t.rows[id].body))
  }

  /** The rows for other keys are as they were, and the one row for `key` has body `body`. */
  ghost predicate OnlyKeyMoved<I, B, M>(
    sec: Section<I, B, M>, u: Table<B, M>, v: Table<B, M>, cat: nat, key: string, body: B)
  {
    && (exists id: nat :: Holds(sec, v, cat, key, id) && v.rows[id].body == body)
    && (forall i: nat, j: nat :: Holds(sec, v, cat, key, i) && Holds(sec, v, cat, key, j) ==> i == j)
    && (forall other, id: nat :: other != key ==>
          (Holds(sec, v, cat, other, id) <==> Holds(sec, u, cat, other, id))
          && (Holds(sec, v, cat, other, id) ==> v.rows[id].body == u.rows[id].body))
  }

  lemma InsertMovesKey<I, B, M>(sec: Section<I, B, M>, cat: nat, u: Table<B, M>, body: B, side: M)
    requires forall id: nat :: !Holds(sec, u, cat, sec.rowKey(body), id)
    ensures OnlyKeyMoved(sec, u, Apply(u, Insert(cat, body, side)), cat, sec.rowKey(body), body)
  {
    var v := Apply(u, Insert(cat, body, side));
    assert Holds(sec, v, cat, sec.rowKey(body), |u.rows|);
    forall i: nat, other ensures Holds(sec, v, cat, other, i) <==>
      (i == |u.rows| && other == sec.rowKey(body)) || Holds(sec, u, cat, other, i)
    {
    }
  }

  lemma SupersedeMovesKey<I, B, M>(
    sec: Section<I, B, M>, cat: nat, u: Table<B, M>, key: string, id: nat, body: B, at: Time)
    requires Holds(sec, u, cat, key, id) && forall i: nat :: Holds(sec, u, cat, key, i) ==> i == id
    requires sec.rowKey(body) == key
    ensures OnlyKeyMoved(sec, u, Apply(u, Supersede(id, body, at)), cat, key, body)
  {
    var v := Apply(u, Supersede(id, body, at));
    assert Holds(sec, v, cat, key, |u.rows|);
    forall i: nat, other ensures Holds(sec, v, cat, other, i) <==>
      (i == |u.rows| && other == key) || (i != id && Holds(sec, u, cat, other, i))
    {
    }
  }

  lemma RewriteMovesKey<I, B, M>(sec: Section<I, B, M>, cat: nat, u: Table<B, M>, key: string, id: nat, body: B)
    requires Holds(sec, u, cat, key, id) && forall i: nat :: Holds(sec, u, cat, key, i) ==> i == id
    requires sec.rowKey(body) == key
    ensures OnlyKeyMoved(sec, u, Apply(u, Rewrite(id, body)), cat, key, body)
  {
    var v := Apply(u, Rewrite(id, body));
    assert Holds(sec, v, cat, key, id);
    forall i: nat, other ensures Holds(sec, v, cat, other, i) <==> Holds(sec, u, cat, other, i) {
    }
  }

  lemma {:induction false} ItemMovesItsKey<I(!new), B(!new), M>(
    sec: Section<I, B, M>, cat: nat, t: Table<B, M>, p: Progress<B, M>, item: I, at: Time)
    requires KeepsKeys(sec) && DistinctRows(sec, p.table, cat) && sec.itemKey(item) != ""
    requires forall id: nat ::
               Holds(sec, p.table, cat, sec.itemKey(item), id) <==> Holds(sec, t, cat, sec.itemKey(item), id)
    requires forall id: nat :: Holds(sec, t, cat, sec.itemKey(item), id) ==> p.table.rows[id].body == t.rows[id].body
    requires ItemStep(sec, cat, Lookup(sec, t, cat, |t.rows|), p, item, at).Some?
    ensures Outcome(sec, t, cat, item).Some?
    ensures OnlyKeyMoved(sec, p.table, ItemStep(sec, cat, Lookup(sec, t, cat, |t.rows|), p, item, at).value.table, cat,
                         sec.itemKey(item), Outcome(sec, t, cat, item).value)
  {
    var key, look := sec.itemKey(item), Lookup(sec, t, cat, |t.rows|);
    var u := p.table;
    if key in look {
      var id := look[key];
      assert Holds(sec, t, cat, key, id);
      assert Holds(sec, u, cat, key, id);
      match sec.react(u.rows[id].body, item) {
        case Keep =>
        case Replace(body) => SupersedeMovesKey(sec, cat, u, key, id, body, at);
        case Overwrite(body) => RewriteMovesKey(sec, cat, u, key, id, body);
      }
    } else {
      var (body, side) := sec.create(item).value;
      InsertMovesKey(sec, cat, u, body, side);
    }
  }

  lemma {:induction false} ImportSettles<I(!new), B(!new), M>(
    sec: Section<I, B, M>, cat: nat, t: Table<B, M>, items: seq<I>, clock: nat -> Time)
    requires KeepsKeys(sec) && DistinctRows(sec, t, cat) && DistinctItems(sec, items)
    requires Import(sec, cat, t, items, clock).Some?
    ensures Settled(sec, t, Import(sec, cat, t, items, clock).value.table, cat, items)
  {
    if items != [] {
      var n := |items| - 1;
      var look := Lookup(sec, t, cat, |t.rows|);
      var p := Fold(sec, cat, look, Start(t), items[..n], clock).value;
      forall j, k | 0 <= j < k < n && sec.itemKey(items[..n][j]) != ""
        ensures sec.itemKey(items[..n][j]) != sec.itemKey(items[..n][k])
      {
        assert items[..n][j] == items[j] && items[..n][k] == items[k];
      }
      ImportSettles(sec, cat, t, items[..n], clock);
      var u, v := p.table, Import(sec, cat, t, items, clock).value.table;
      assert items == items[..n] + [items[n]];
      forall key ensures Mentions(sec, items, key) <==> Mentions(sec, items[..n], key) || key == sec.itemKey(items[n]) {
        MentionsAppend(sec, items[..n], items[n], key);
      }
      if sec.itemKey(items[n]) != "" {
        forall k | 0 <= k < n ensures sec.itemKey(items[..n][k]) != sec.itemKey(items[n]) {
          assert items[..n][k] == items[k];
        }
        assert !Mentions(sec, items[..n], sec.itemKey(items[n]));
        ItemMovesItsKey(sec, cat, t, p, items[n], clock(n));
        SettledStep(sec, t, u, v, cat, items[..n], items[n]);
      } else {
        assert u == v;
        SettledBlank(sec, t, u, cat, items[..n], items[n]);
      }
    }
  }

  lemma MentionsAppend<I, B, M>(sec: Section<I, B, M>, items: seq<I>, item: I, key: string)
    ensures Mentions(sec, items + [item], key) <==> Mentions(sec, items, key) || sec.itemKey(item) == key
  {
    var all := items + [item];
    if Mentions(sec, items, key) {
      var k :| 0 <= k < |items| && sec.itemKey(items[k]) == key;
      assert sec.itemKey(all[k]) == key;
    }
    if sec.itemKey(item) == key {
      assert sec.itemKey(all[|items|]) == key;
    }
  }

  lemma SettledBlank<I, B, M>(
    sec: Section<I, B, M>, t: Table<B, M>, u: Table<B, M>, cat: nat, items: seq<I>, item: I)
    requires Settled(sec, t, u, cat, items) && sec.itemKey(item) == ""
    ensures Settled(sec, t, u, cat, items + [item])
  {
    forall key ensures key != "" ==> (Mentions(sec, items + [item], key) <==> Mentions(sec, items, key)) {
      MentionsAppend(sec, items, item, key);
    }
  }

  lemma SettledStep<I, B, M>(
    sec: Section<I, B, M>, t: Table<B, M>, u: Table<B, M>, v: Table<B, M>, cat: nat, items: seq<I>, item: I)
    requires Settled(sec, t, u, cat, items) && sec.itemKey(item) != "" && !Mentions(sec, items, sec.itemKey(item))
    requires Outcome(sec, t, cat, item).Some?
    requires OnlyKeyMoved(sec, u, v, cat, sec.itemKey(item), Outcome(sec, t, cat, item).value)
    ensures Settled(sec, t, v, cat, items + [item])
  {
    var key, all := sec.itemKey(item), items + [item];
    forall k | 0 <= k < |all| && sec.itemKey(all[k]) != ""
      ensures exists id: nat :: Holds(sec, v, cat, sec.itemKey(all[k]), id)
                                && Outcome(sec, t, cat, all[k]) == Some(v.rows[id].body)
    {
      if k < |items| {
        assert all[k] == items[k] && sec.itemKey(items[k]) != key;
        var id: nat :| Holds(sec, u, cat, sec.itemKey(items[k]), id)
                       && Outcome(sec, t, cat, items[k]) == Some(u.rows[id].body);
        assert Holds(sec, v, cat, sec.itemKey(all[k]), id);
      } else {
        var id: nat :| Holds(sec, v, cat, key, id) && v.rows[id].body == Outcome(sec, t, cat, item).value;
        assert Holds(sec, v, cat, sec.itemKey(all[k]), id);
      }
    }
    forall other, id: nat | other != "" && !Mentions(sec, all, other)
      ensures Holds(sec, v, cat, other, id) <==> Holds(sec, t, cat, other, id)
      ensures Holds(sec, v, cat, other, id) ==> v.rows[id].body == t.rows[id].body
    {
      MentionsAppend(sec, items, item, other);
    }
    forall other, i: nat, j: nat | other != "" && Holds(sec, v, cat, other, i) && Holds(sec, v, cat, other, j)
      ensures i == j
    {
      if other != key {
        assert Holds(sec, u, cat, other, i) && Holds(sec, u, cat, other, j);
      }
    }
  }

  // ------------------------------------------------------------------------------------------
  // Export
  // ------------------------------------------------------------------------------------------

  /** The category's current rows among the first `n`, exported in table order. */
  function Export<I, B, M>(sec: Section<I, B, M>, t: Table<B, M>, cat: nat, n: nat): seq<I>
    requires n <= |t.rows|
  {
    if n == 0 then []
    else
      var row := t.rows[n - 1];
      Export(sec, t, cat, n - 1) + if row.owner == cat && row.Current() then [sec.dump(row.body, row.side)] else []
  }

  /** The item is the export of a current row of the category, among the first `n`. */
  ghost predicate IsDumpOfRow<I, B, M>(sec: Section<I, B, M>, t: Table<B, M>, cat: nat, n: nat, item: I)
    requires n <= |t.rows|
  {
    exists i: nat ::
      i < n && t.rows[i].owner == cat && t.rows[i].Current() && item == sec.dump(t.rows[i].body, t.rows[i].side)
  }

  /** The export lists exactly the current rows of the category. */
  lemma {:induction false} ExportedRows<I(!new), B, M>(sec: Section<I, B, M>, t: Table<B, M>, cat: nat, n: nat)
    requires n <= |t.rows|
    ensures forall item :: item in Export(sec, t, cat, n) <==> IsDumpOfRow(sec, t, cat, n, item)
  {
    if n > 0 {
      ExportedRows(sec, t, cat, n - 1);
      forall item
        ensures item in Export(sec, t, cat, n) <==> IsDumpOfRow(sec, t, cat, n, item)
      {
        assert IsDumpOfRow(sec, t, cat, n - 1, item) ==> IsDumpOfRow(sec, t, cat, n, item);
      }
    }
  }

  /** The category's current rows among the first `n`, in table order. */
  function CurrentRows<B, M>(t: Table<B, M>, cat: nat, n: nat): (ids: seq<nat>)
    requires n <= |t.rows|
    ensures forall i: nat :: i in ids <==> i < n && t.rows[i].owner == cat && t.rows[i].Current()
    ensures forall j, k :: 0 <= j < k < |ids| ==> ids[j] < ids[k]
  {
    if n == 0 then []
    else
      var before := CurrentRows(t, cat, n - 1);
      assert forall k :: 0 <= k < |before| ==> before[k] in before;
      before + if t.rows[n - 1].owner == cat && t.rows[n - 1].Current() then [n - 1] else []
  }

  /** Each item is the export of the row listed at its place. */
  ghost predicate Dumps<I, B, M>(sec: Section<I, B, M>, t: Table<B, M>, ids: seq<nat>, items: seq<I>) {
    |items| == |ids| && forall k :: 0 <= k < |ids| ==>
      ids[k] < |t.rows| && items[k] == sec.dump(t.rows[ids[k]].body, t.rows[ids[k]].side)
  }

  /** The items are the exports of exactly the category's current rows, each once and in table order. */
  ghost predicate ListsRows<I, B, M>(sec: Section<I, B, M>, t: Table<B, M>, cat: nat, items: seq<I>) {
    Dumps(sec, t, CurrentRows(t, cat, |t.rows|), items)
  }

  lemma DumpsAppend<I, B, M>(sec: Section<I, B, M>, t: Table<B, M>, ids: seq<nat>, items: seq<I>, id: nat)
    requires Dumps(sec, t, ids, items) && id < |t.rows|
    ensures Dumps(sec, t, ids + [id], items + [sec.dump(t.rows[id].body, t.rows[id].side)])
  {
  }

  lemma {:induction false} ExportListsRows<I, B, M>(sec: Section<I, B, M>, t: Table<B, M>, cat: nat, n: nat)
    requires n <= |t.rows|
    ensures Dumps(sec, t, CurrentRows(t, cat, n), Export(sec, t, cat, n))
  {
    if n > 0 {
      ExportListsRows(sec, t, cat, n - 1);
      DumpsAppend(sec, t, CurrentRows(t, cat, n - 1), Export(sec, t, cat, n - 1), n - 1);
      assert CurrentRows(t, cat, n - 1) + [] == CurrentRows(t, cat, n - 1);
      assert Export(sec, t, cat, n - 1) + [] == Export(sec, t, cat, n - 1);
    }
  }

  /** Rows of the category that share a key that is not blank also share their content. */
  ghost predicate SameKeySameContent<I, B, M>(sec: Section<I, B, M>, t: Table<B, M>, cat: nat) {
    forall key, i: nat, j: nat :: key != "" && Holds(sec, t, cat, key, i) && Holds(sec, t, cat, key, j) ==>
      sec.react(t.rows[i].body, sec.dump(t.rows[j].body, t.rows[j].side)).Keep?
  }

  /** Importing a category's own export keeps every row exactly when rows with one key have one content. */
  lemma {:induction false} OwnExportKeepsIff<I(!new), B(!new), M(!new)>(sec: Section<I, B, M>, t: Table<B, M>, cat: nat)
    requires DumpsFaithfully(sec)
    ensures AllKeep(sec, t, Lookup(sec, t, cat, |t.rows|), Export(sec, t, cat, |t.rows|))
            <==> SameKeySameContent(sec, t, cat)
  {
    var look, items := Lookup(sec, t, cat, |t.rows|), Export(sec, t, cat, |t.rows|);
    ExportedRows(sec, t, cat, |t.rows|);
    if SameKeySameContent(sec, t, cat) {
      forall k | 0 <= k < |items| && sec.itemKey(items[k]) != ""
        ensures sec.itemKey(items[k]) in look
        ensures sec.react(t.rows[look[sec.itemKey(items[k])]].body, items[k]).Keep?
      {
        assert items[k] in items && IsDumpOfRow(sec, t, cat, |t.rows|, items[k]);
        var i: nat :| i < |t.rows| && t.rows[i].owner == cat && t.rows[i].Current()
                      && items[k] == sec.dump(t.rows[i].body, t.rows[i].side);
        assert Holds(sec, t, cat, sec.itemKey(items[k]), i);
      }
    }
    if AllKeep(sec, t, look, items) {
      forall key, i: nat, j: nat | key != "" && Holds(sec, t, cat, key, i) && Holds(sec, t, cat, key, j)
        ensures sec.react(t.rows[i].body, sec.dump(t.rows[j].body, t.rows[j].side)).Keep?
      {
        var a, b := sec.dump(t.rows[i].body, t.rows[i].side), sec.dump(t.rows[j].body, t.rows[j].side);
        assert IsDumpOfRow(sec, t, cat, |t.rows|, a) && IsDumpOfRow(sec, t, cat, |t.rows|, b);
        assert a in items && b in items;
        var holder := t.rows[look[key]].body;
        assert sec.react(holder, a).Keep? && sec.react(holder, b).Keep?;
      }
    }
  }

  // ------------------------------------------------------------------------------------------
  // Importing into a category that has no rows
  // ------------------------------------------------------------------------------------------

  predicate Unowned<B, M>(t: Table<B, M>, cat: nat) {
    forall i :: 0 <= i < |t.rows| ==> t.rows[i].owner != cat
  }

  /** The items that are not blank, in order. */
  function Labelled<I, B, M>(sec: Section<I, B, M>, items: seq<I>): seq<I> {
    if items == [] then []
    else
      var n := |items| - 1;
      Labelled(sec, items[..n]) + if sec.itemKey(items[n]) == "" then [] else [items[n]]
  }

  /** The item is the export of some row. */
  ghost predicate IsDump<I, B(!new), M(!new)>(sec: Section<I, B, M>, item: I) {
    exists b, m :: item == sec.dump(b, m)
  }

  ghost predicate Exported<I, B(!new), M(!new)>(sec: Section<I, B, M>, items: seq<I>) {
    forall k :: 0 <= k < |items| ==> IsDump(sec, items[k])
  }

  lemma {:induction false} LookupOfUnowned<I, B, M>(sec: Section<I, B, M>, t: Table<B, M>, cat: nat, n: nat)
    requires n <= |t.rows| && Unowned(t, cat)
    ensures Lookup(sec, t, cat, n) == map[]
    ensures Export(sec, t, cat, n) == []
  {
    if n > 0 {
      LookupOfUnowned(sec, t, cat, n - 1);
    }
  }

  lemma {:induction false} ExportIgnoresLaterRows<I, B, M>(
    sec: Section<I, B, M>, t: Table<B, M>, u: Table<B, M>, cat: nat, n: nat)
    requires n <= |t.rows| && n <= |u.rows| && t.rows[..n] == u.rows[..n]
    ensures Export(sec, t, cat, n) == Export(sec, u, cat, n)
  {
    if n > 0 {
      assert t.rows[..n][n - 1] == u.rows[..n][n - 1];
      assert t.rows[..n - 1] == t.rows[..n][..n - 1];
      assert u.rows[..n - 1] == u.rows[..n][..n - 1];
      ExportIgnoresLaterRows(sec, t, u, cat, n - 1);
    }
  }

  /** Exported items imported into a category without rows come out again, but for the blank ones. */
  lemma {:induction false} ImportThenExport<I(!new), B(!new), M(!new)>(
    sec: Section<I, B, M>, cat: nat, t: Table<B, M>, items: seq<I>, clock: nat -> Time)
    requires DumpsFaithfully(sec) && Unowned(t, cat) && Exported(sec, items)
    ensures Import(sec, cat, t, items, clock).Some?
    ensures var u := Import(sec, cat, t, items, clock).value.table;
            Export(sec, u, cat, |u.rows|) == Labelled(sec, items)
  {
    LookupOfUnowned(sec, t, cat, |t.rows|);
    if items != [] {
      var n := |items| - 1;
      forall k | 0 <= k < n ensures IsDump(sec, items[..n][k]) {
        assert items[..n][k] == items[k];
      }
      ImportThenExport(sec, cat, t, items[..n], clock);
      var p := Import(sec, cat, t, items[..n], clock).value;
      var u := Import(sec, cat, t, items, clock).value.table;
      if sec.itemKey(items[n]) != "" {
        var b, m :| items[n] == sec.dump(b, m);
        assert sec.create(items[n]) == Some((b, m));
        assert u.rows[..|p.table.rows|] == p.table.rows[..|p.table.rows|];
        ExportIgnoresLaterRows(sec, p.table, u, cat, |p.table.rows|);
      }
    }
  }

  lemma AppendIsInjective<T>(a: seq<T>, b: seq<T>, x: T)
    ensures a + [x] == b + [x] <==> a == b
  {
    if a + [x] == b + [x] {
      assert a == (a + [x])[..|a|];
      assert b == (b + [x])[..|b|];
    }
  }

  /** No item is blank. */
  predicate NoneBlank<I, B, M>(sec: Section<I, B, M>, items: seq<I>) {
    forall k :: 0 <= k < |items| ==> sec.itemKey(items[k]) != ""
  }

  lemma NoneBlankAppend<I, B, M>(sec: Section<I, B, M>, items: seq<I>, item: I)
    ensures NoneBlank(sec, items + [item]) <==> NoneBlank(sec, items) && sec.itemKey(item) != ""
  {
    var all := items + [item];
    if NoneBlank(sec, all) {
      assert all[|items|] == item;
      forall k | 0 <= k < |items| ensures sec.itemKey(items[k]) != "" {
        assert all[k] == items[k];
      }
    }
  }

  lemma {:induction false} LabelledIsAllIff<I, B, M>(sec: Section<I, B, M>, items: seq<I>)
    ensures |Labelled(sec, items)| <= |items|
    ensures Labelled(sec, items) == items <==> NoneBlank(sec, items)
  {
    if items != [] {
      var n := |items| - 1;
      var before := items[..n];
      LabelledIsAllIff(sec, before);
      NoneBlankAppend(sec, before, items[n]);
      assert items == before + [items[n]];
      if sec.itemKey(items[n]) != "" {
        AppendIsInjective(Labelled(sec, before), before, items[n]);
      }
    }
  }
}
