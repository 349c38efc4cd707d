/** The component section, whose items write over the row they match: importing it twice, and its own export. */
module ComponentTheorems {
  import opened Common
  import opened Versioning
  import opened BundleImport
  import opened ImportTwice
  import opened CategoryStore

  function WithWeight(row: Row<ComponentBody, bool>, weight: int): Row<ComponentBody, bool> {
    row.(body := row.body.(weight := weight))
  }

  /** A component item whose key is known writes its weight into the looked-up row, and does nothing else. */
  lemma ComponentItemStep(
    category: nat, look: map<string, nat>, p: Progress<ComponentBody, bool>, item: ComponentItem, at: Time)
    requires ComponentItemKey(item) in look && look[ComponentItemKey(item)] < |p.table.rows|
    requires ComponentItemKey(item) != "" && item.weight.Present?
    ensures var r, id := ItemStep(COMPONENTS, category, look, p, item, at), look[ComponentItemKey(item)];
            && r.Some? && r.value.added == p.added && r.value.table.prior == p.table.prior
            && r.value.table.rows == p.table.rows[id := WithWeight(p.table.rows[id], item.weight.value)]
  {
    var id := look[ComponentItemKey(item)];
    assert COMPONENTS.itemKey(item) == ComponentItemKey(item);
    assert COMPONENTS.react(p.table.rows[id].body, item) == ReactComponent(p.table.rows[id].body, item);
    assert p.table.rows[id] == WithWeight(p.table.rows[id], p.table.rows[id].body.weight);
  }

  // ------------------------------------------------------------------------------------------
  // Importing twice
  // ------------------------------------------------------------------------------------------

  /** The weight that the last item with the key asks for. */
  function LastWeight(items: seq<ComponentItem>, key: string): Option<int> {
    match LastItem(COMPONENTS, items, key)
    case None => None
    case Some(item) => Get(item.weight)
  }

  lemma ComponentReacts(b: ComponentBody, i: ComponentItem)
    ensures COMPONENTS.itemKey(i) == ComponentItemKey(i) && COMPONENTS.rowKey(b) == ComponentRowKey(b)
    ensures COMPONENTS.react(b, i) == ReactComponent(b, i) && COMPONENTS.create(i) == CreateComponent(i)
  {
  }

  /** A weight written over another moves no row from key to key. */
  lemma HoldersIgnoreWeights(
    u: Table<ComponentBody, bool>, v: Table<ComponentBody, bool>, category: nat, key: string, id: nat, weight: int)
    requires id < |u.rows| && v.rows == u.rows[id := WithWeight(u.rows[id], weight)]
    ensures forall i: nat :: Holds(COMPONENTS, v, category, key, i) <==> Holds(COMPONENTS, u, category, key, i)
    ensures forall i: nat ::
              LastHolder(COMPONENTS, v, category, key, i) <==> LastHolder(COMPONENTS, u, category, key, i)
  {
    forall i: nat ensures Holds(COMPONENTS, v, category, key, i) <==> Holds(COMPONENTS, u, category, key, i) {
      forall b: ComponentBody ensures COMPONENTS.rowKey(b) == ComponentRowKey(b) {}
    }
  }

  /** The last row of the key has the weight the items ask for, if they mention it. */
  ghost predicate Weighed(u: Table<ComponentBody, bool>, category: nat, items: seq<ComponentItem>, key: string) {
    Mentions(COMPONENTS, items, key) ==>
      exists id: nat ::
        LastHolder(COMPONENTS, u, category, key, id) && LastWeight(items, key) == Some(u.rows[id].body.weight)
  }

  /** A key known before the import keeps its last row; any other has a last row once an item mentions it. */
  ghost predicate HolderKept(t: Table<ComponentBody, bool>, u: Table<ComponentBody, bool>, category: nat, key: string) {
    var look := Lookup(COMPONENTS, t, category, |t.rows|);
    key in look ==> LastHolder(COMPONENTS, u, category, key, look[key])
  }

  /** An item that names key `key` weighs the key's last row; any other leaves that row alone. */
  ghost predicate Weighs(
    category: nat, u: Table<ComponentBody, bool>, v: Table<ComponentBody, bool>, item: ComponentItem, key: string)
  {
    if ComponentItemKey(item) == key then
      item.weight.Present? && exists id: nat ::
        LastHolder(COMPONENTS, v, category, key, id) && v.rows[id].body.weight == item.weight.value
    else
      forall id: nat :: LastHolder(COMPONENTS, u, category, key, id) ==>
        LastHolder(COMPONENTS, v, category, key, id) && v.rows[id].body == u.rows[id].body
  }

  lemma {:induction false} ItemWeighs(
    t: Table<ComponentBody, bool>, category: nat, p: Progress<ComponentBody, bool>, item: ComponentItem, at: Time,
    key: string)
    requires key != "" && HolderKept(t, p.table, category, key)
    requires ComponentItemKey(item) != "" ==> HolderKept(t, p.table, category, ComponentItemKey(item))
    requires ItemStep(COMPONENTS, category, Lookup(COMPONENTS, t, category, |t.rows|), p, item, at).Some?
    ensures var v := ItemStep(COMPONENTS, category, Lookup(COMPONENTS, t, category, |t.rows|), p, item, at).value.table;
            HolderKept(t, v, category, key) && Weighs(category, p.table, v, item, key)
  {
    var look, u, other := Lookup(COMPONENTS, t, category, |t.rows|), p.table, ComponentItemKey(item);
    assert COMPONENTS.itemKey(item) == other && COMPONENTS.create(item) == CreateComponent(item);
    if other != "" {
      if other in look {
        ItemGivesWeight(category, look, p, item, at);
        ComponentItemStep(category, look, p, item, at);
        var v := ItemStep(COMPONENTS, category, look, p, item, at).value.table;
        HoldersIgnoreWeights(u, v, category, key, look[other], item.weight.value);
        KnownItemWeighs(u, v, category, item, look[other], key);
      } else {
        var (body, active) := CreateComponent(item).value;
        NewComponent(u, Apply(u, Insert(category, body, active)), category, key, body, active);
      }
    }
  }

  lemma KnownItemWeighs(
    u: Table<ComponentBody, bool>, v: Table<ComponentBody, bool>, category: nat, item: ComponentItem, id: nat,
    key: string)
    requires item.weight.Present? && LastHolder(COMPONENTS, u, category, ComponentItemKey(item), id)
    requires id < |u.rows| && v.rows == u.rows[id := WithWeight(u.rows[id], item.weight.value)]
    requires forall i: nat ::
               LastHolder(COMPONENTS, v, category, key, i) <==> LastHolder(COMPONENTS, u, category, key, i)
    ensures Weighs(category, u, v, item, key)
  {
  }

  /** An item that names a known key, and was imported, gave a weight. */
  lemma ItemGivesWeight(
    category: nat, look: map<string, nat>, p: Progress<ComponentBody, bool>, item: ComponentItem, at: Time)
    requires ComponentItemKey(item) != "" && ItemStep(COMPONENTS, category, look, p, item, at).Some?
    ensures item.weight.Present?
  {
    assert COMPONENTS.itemKey(item) == ComponentItemKey(item) && COMPONENTS.create(item) == CreateComponent(item);
    if ComponentItemKey(item) in look && look[ComponentItemKey(item)] < |p.table.rows| {
      ComponentReacts(p.table.rows[look[ComponentItemKey(item)]].body, item);
    }
  }

  lemma NewComponent(
    u: Table<ComponentBody, bool>, v: Table<ComponentBody, bool>, category: nat, key: string, body: ComponentBody,
    active: bool)
    requires v == Apply(u, Insert(category, body, active))
    ensures ComponentRowKey(body) == key ==> LastHolder(COMPONENTS, v, category, key, |u.rows|)
    ensures ComponentRowKey(body) != key ==> forall id: nat :: LastHolder(COMPONENTS, u, category, key, id) ==>
              LastHolder(COMPONENTS, v, category, key, id)
  {
    assert COMPONENTS.rowKey(body) == ComponentRowKey(body);
    forall i: nat
      ensures Holds(COMPONENTS, v, category, key, i) <==>
                Holds(COMPONENTS, u, category, key, i) || (i == |u.rows| && ComponentRowKey(body) == key)
    {
    }
  }

  /** After any import of components, the last row of every mentioned key has the weight asked for last. */
  lemma {:induction false} ImportWeighs(
    t: Table<ComponentBody, bool>, category: nat, items: seq<ComponentItem>, clock: nat -> Time, key: string)
    requires key != "" && Import(COMPONENTS, category, t, items, clock).Some?
    ensures var u := Import(COMPONENTS, category, t, items, clock).value.table;
            HolderKept(t, u, category, key) && Weighed(u, category, items, key)
  {
    if items == [] {
      var look := Lookup(COMPONENTS, t, category, |t.rows|);
      if key in look {
        assert Holds(COMPONENTS, t, category, key, look[key]);
      }
    } else {
      var n := |items| - 1;
      var p := Import(COMPONENTS, category, t, items[..n], clock).value;
      var item := items[n];
      ImportWeighs(t, category, items[..n], clock, key);
      assert COMPONENTS.itemKey(item) == ComponentItemKey(item);
      if ComponentItemKey(item) != "" {
        ImportWeighs(t, category, items[..n], clock, ComponentItemKey(item));
      }
      ItemWeighs(t, category, p, item, clock(n), key);
      assert items == items[..n] + [item];
      MentionsAppend(COMPONENTS, items[..n], item, key);
    }
  }

  /** What row `id` becomes when every item of the payload finds its key. */
  function Reweighed(
    u: Table<ComponentBody, bool>, look: map<string, nat>, items: seq<ComponentItem>, id: nat): Row<ComponentBody, bool>
    requires id < |u.rows|
  {
    var key := ComponentRowKey(u.rows[id].body);
    if key != "" && key in look && look[key] == id && LastWeight(items, key).Some?
    then WithWeight(u.rows[id], LastWeight(items, key).value)
    else u.rows[id]
  }

  /** Every labelled item has a weight and finds a row of its key. */
  ghost predicate AllMatch(
    u: Table<ComponentBody, bool>, look: map<string, nat>, items: seq<ComponentItem>)
  {
    forall i :: i in items && ComponentItemKey(i) != "" ==>
      && i.weight.Present? && ComponentItemKey(i) in look && look[ComponentItemKey(i)] < |u.rows|
      && ComponentRowKey(u.rows[look[ComponentItemKey(i)]].body) == ComponentItemKey(i)
  }

  /** The table has its rows reweighed by the items, and nothing was added. */
  ghost predicate ReweighedBy(
    u: Table<ComponentBody, bool>, look: map<string, nat>, items: seq<ComponentItem>, p: Progress<ComponentBody, bool>)
  {
    && p.added == [] && p.table.prior == u.prior && |p.table.rows| == |u.rows|
    && forall id: nat :: id < |u.rows| ==> p.table.rows[id] == Reweighed(u, look, items, id)
  }

  lemma MatchingItemReweighs(
    u: Table<ComponentBody, bool>, category: nat, look: map<string, nat>, items: seq<ComponentItem>,
    item: ComponentItem, p: Progress<ComponentBody, bool>, at: Time)
    requires AllMatch(u, look, items + [item]) && ReweighedBy(u, look, items, p)
    ensures var r := ItemStep(COMPONENTS, category, look, p, item, at);
            r.Some? && ReweighedBy(u, look, items + [item], r.value)
  {
    var all, key := items + [item], ComponentItemKey(item);
    assert COMPONENTS.itemKey(item) == key && item in all;
    forall other ensures LastWeight(all, other) == if other == key then Get(item.weight) else LastWeight(items, other) {
      assert all[..|all| - 1] == items;
    }
    if key != "" {
      ComponentItemStep(category, look, p, item, at);
    }
  }

  lemma {:induction false} MatchingItemsReweigh(
    u: Table<ComponentBody, bool>, category: nat, look: map<string, nat>, items: seq<ComponentItem>, clock: nat -> Time)
    requires AllMatch(u, look, items)
    ensures var r := Fold(COMPONENTS, category, look, Start(u), items, clock);
            r.Some? && ReweighedBy(u, look, items, r.value)
  {
    if items != [] {
      var n := |items| - 1;
      MatchingItemsReweigh(u, category, look, items[..n], clock);
      var p := Fold(COMPONENTS, category, look, Start(u), items[..n], clock).value;
      assert items == items[..n] + [items[n]];
      MatchingItemReweighs(u, category, look, items[..n], items[n], p, clock(n));
    }
  }

  lemma LastHolderIsFound(u: Table<ComponentBody, bool>, category: nat, key: string, id: nat)
    requires LastHolder(COMPONENTS, u, category, key, id)
    ensures var look := Lookup(COMPONENTS, u, category, |u.rows|);
            key in look && look[key] == id && id < |u.rows| && ComponentRowKey(u.rows[id].body) == key
  {
    assert Holds(COMPONENTS, u, category, key, Lookup(COMPONENTS, u, category, |u.rows|)[key]);
    assert COMPONENTS.rowKey(u.rows[id].body) == ComponentRowKey(u.rows[id].body);
  }

  /** The next lookup finds the key at a row with the weight asked for last. */
  ghost predicate WeightFound(u: Table<ComponentBody, bool>, category: nat, items: seq<ComponentItem>, key: string) {
    var look := Lookup(COMPONENTS, u, category, |u.rows|);
    && key in look && look[key] < |u.rows| && ComponentRowKey(u.rows[look[key]].body) == key
    && LastWeight(items, key) == Some(u.rows[look[key]].body.weight)
  }

  lemma WeighedIsFound(u: Table<ComponentBody, bool>, category: nat, items: seq<ComponentItem>, key: string)
    requires Weighed(u, category, items, key) && Mentions(COMPONENTS, items, key)
    ensures WeightFound(u, category, items, key)
  {
    var id: nat :| LastHolder(COMPONENTS, u, category, key, id)
                   && LastWeight(items, key) == Some(u.rows[id].body.weight);
    LastHolderIsFound(u, category, key, id);
  }

  lemma WeightsAreFound(
    t: Table<ComponentBody, bool>, category: nat, items: seq<ComponentItem>, clock: nat -> Time, key: string)
    requires Import(COMPONENTS, category, t, items, clock).Some? && key != "" && Mentions(COMPONENTS, items, key)
    ensures WeightFound(Import(COMPONENTS, category, t, items, clock).value.table, category, items, key)
  {
    ImportWeighs(t, category, items, clock, key);
    WeighedIsFound(Import(COMPONENTS, category, t, items, clock).value.table, category, items, key);
  }

  lemma ImportedItemsMatch(
    t: Table<ComponentBody, bool>, category: nat, items: seq<ComponentItem>, clock: nat -> Time)
    requires Import(COMPONENTS, category, t, items, clock).Some?
    ensures var u := Import(COMPONENTS, category, t, items, clock).value.table;
            AllMatch(u, Lookup(COMPONENTS, u, category, |u.rows|), items)
  {
    WeightsAreGiven(t, category, items, clock);
    forall i | i in items && ComponentItemKey(i) != ""
      ensures var u, key := Import(COMPONENTS, category, t, items, clock).value.table, ComponentItemKey(i);
              var look := Lookup(COMPONENTS, u, category, |u.rows|);
              key in look && look[key] < |u.rows| && ComponentRowKey(u.rows[look[key]].body) == key
    {
      var k :| 0 <= k < |items| && items[k] == i;
      assert COMPONENTS.itemKey(items[k]) == ComponentItemKey(i);
      WeightsAreFound(t, category, items, clock, ComponentItemKey(i));
    }
  }

  lemma SameWeightsSameTable(
    u: Table<ComponentBody, bool>, look: map<string, nat>, items: seq<ComponentItem>, p: Progress<ComponentBody, bool>)
    requires ReweighedBy(u, look, items, p)
    requires forall id: nat :: id < |u.rows| ==> Reweighed(u, look, items, id) == u.rows[id]
    ensures p.table == u
  {
    assert p.table.rows == u.rows;
  }

  /**
    Importing the components of a payload twice leaves what importing them once leaves, and adds nothing the second
    time, whatever names repeat. (Rows of one name may be rewritten on the way.)
   */
  lemma {:induction false} ComponentsSettle(
    t: Table<ComponentBody, bool>, category: nat, items: seq<ComponentItem>, clock: nat -> Time, again: nat -> Time)
    requires Import(COMPONENTS, category, t, items, clock).Some?
    ensures var u := Import(COMPONENTS, category, t, items, clock).value.table;
            var r := Import(COMPONENTS, category, u, items, again);
            r.Some? && r.value.added == [] && r.value.table == u
  {
    var u := Import(COMPONENTS, category, t, items, clock).value.table;
    var look := Lookup(COMPONENTS, u, category, |u.rows|);
    ImportedItemsMatch(t, category, items, clock);
    MatchingItemsReweigh(u, category, look, items, again);
    forall id: nat | id < |u.rows| ensures Reweighed(u, look, items, id) == u.rows[id] {
      var key := ComponentRowKey(u.rows[id].body);
      if key != "" && LastWeight(items, key).Some? {
        assert Mentions(COMPONENTS, items, key);
        WeightsAreFound(t, category, items, clock, key);
      }
    }
    SameWeightsSameTable(u, look, items, Import(COMPONENTS, category, u, items, again).value);
  }

  /** Every labelled item finds a row, and the row has the weight that the last item of its name asks for. */
  ghost predicate ComponentsHeld(t: Table<ComponentBody, bool>, category: nat, items: seq<ComponentItem>) {
    var look := Lookup(COMPONENTS, t, category, |t.rows|);
    forall i :: i in items && ComponentItemKey(i) != "" ==>
      ComponentItemKey(i) in look && look[ComponentItemKey(i)] < |t.rows|
      && LastWeight(items, ComponentItemKey(i)) == Some(t.rows[look[ComponentItemKey(i)]].body.weight)
  }

  /** Where every labelled item finds a row, the import reweighs the rows it finds. */
  lemma FoundItemsReweigh(
    t: Table<ComponentBody, bool>, category: nat, items: seq<ComponentItem>, clock: nat -> Time)
    requires Import(COMPONENTS, category, t, items, clock).Some?
    requires forall i :: i in items && ComponentItemKey(i) != "" ==>
               ComponentItemKey(i) in Lookup(COMPONENTS, t, category, |t.rows|)
    ensures var look := Lookup(COMPONENTS, t, category, |t.rows|);
            AllMatch(t, look, items)
            && ReweighedBy(t, look, items, Import(COMPONENTS, category, t, items, clock).value)
  {
    var look := Lookup(COMPONENTS, t, category, |t.rows|);
    WeightsAreGiven(t, category, items, clock);
    forall i | i in items && ComponentItemKey(i) != ""
      ensures look[ComponentItemKey(i)] < |t.rows|
      ensures ComponentRowKey(t.rows[look[ComponentItemKey(i)]].body) == ComponentItemKey(i)
    {
      assert Holds(COMPONENTS, t, category, ComponentItemKey(i), look[ComponentItemKey(i)]);
      ComponentReacts(t.rows[look[ComponentItemKey(i)]].body, i);
    }
    MatchingItemsReweigh(t, category, look, items, clock);
  }

  lemma GivenLastWeight(items: seq<ComponentItem>, item: ComponentItem)
    requires item in items && ComponentItemKey(item) != ""
    requires forall i :: i in items && ComponentItemKey(i) != "" ==> i.weight.Present?
    ensures LastWeight(items, ComponentItemKey(item)).Some?
  {
    var k :| 0 <= k < |items| && items[k] == item;
    assert COMPONENTS.itemKey(items[k]) == ComponentItemKey(item);
    assert Mentions(COMPONENTS, items, ComponentItemKey(item));
    var last := LastItem(COMPONENTS, items, ComponentItemKey(item)).value;
    assert COMPONENTS.itemKey(last) == ComponentItemKey(last);
  }

  /** An accepted import leaves the components as they are exactly if they hold the weights asked for last. */
  lemma {:induction false} ComponentsUnchangedIff(
    t: Table<ComponentBody, bool>, category: nat, items: seq<ComponentItem>, clock: nat -> Time)
    requires Import(COMPONENTS, category, t, items, clock).Some?
    ensures var r := Import(COMPONENTS, category, t, items, clock).value;
            && (r.table == t <==> ComponentsHeld(t, category, items))
            && (r.table == t ==> r.added == [])
  {
    var look, p := Lookup(COMPONENTS, t, category, |t.rows|), Import(COMPONENTS, category, t, items, clock).value;
    if ComponentsHeld(t, category, items) {
      FoundItemsReweigh(t, category, items, clock);
      forall id: nat | id < |t.rows| ensures Reweighed(t, look, items, id) == t.rows[id] {
        var key := ComponentRowKey(t.rows[id].body);
        if key != "" && LastWeight(items, key).Some? {
          var last := LastItem(COMPONENTS, items, key).value;
          assert COMPONENTS.itemKey(last) == ComponentItemKey(last);
        }
      }
      SameWeightsSameTable(t, look, items, p);
    }
    if p.table == t {
      NothingAddedAllFound(COMPONENTS, category, look, t, items, clock);
      forall i: ComponentItem ensures COMPONENTS.itemKey(i) == ComponentItemKey(i) {}
      FoundItemsReweigh(t, category, items, clock);
      forall i | i in items && ComponentItemKey(i) != ""
        ensures LastWeight(items, ComponentItemKey(i)) == Some(t.rows[look[ComponentItemKey(i)]].body.weight)
      {
        GivenLastWeight(items, i);
        assert p.table.rows[look[ComponentItemKey(i)]] == Reweighed(t, look, items, look[ComponentItemKey(i)]);
      }
    }
  }

  /** An item that was imported gave a weight. */
  lemma {:induction false} WeightsAreGiven(
    t: Table<ComponentBody, bool>, category: nat, items: seq<ComponentItem>, clock: nat -> Time)
    requires Import(COMPONENTS, category, t, items, clock).Some?
    ensures forall i :: i in items && ComponentItemKey(i) != "" ==> i.weight.Present?
  {
    if items != [] {
      var n := |items| - 1;
      var look := Lookup(COMPONENTS, t, category, |t.rows|);
      WeightsAreGiven(t, category, items[..n], clock);
      assert items == items[..n] + [items[n]];
      if ComponentItemKey(items[n]) != "" {
        var p := Import(COMPONENTS, category, t, items[..n], clock).value;
        ItemGivesWeight(category, look, p, items[n], clock(n));
      }
    }
  }

  // ------------------------------------------------------------------------------------------
  // A category's own export
  // ------------------------------------------------------------------------------------------

  /** Row `i` may hold a foreign weight while a later export of its own is still to come. */
  predicate Pending(
    t: Table<ComponentBody, bool>, u: Table<ComponentBody, bool>, look: map<string, nat>, n: nat, i: nat)
    requires i < |t.rows| == |u.rows|
  {
    var key := ComponentRowKey(t.rows[i].body);
    n <= i && key != "" && key in look && look[key] == i && u.rows[i] == WithWeight(t.rows[i], u.rows[i].body.weight)
  }

  ghost predicate Restored(
    t: Table<ComponentBody, bool>, u: Table<ComponentBody, bool>, look: map<string, nat>, n: nat)
  {
    && u.prior == t.prior && |u.rows| == |t.rows|
    && (forall i: nat :: i < |t.rows| ==> u.rows[i] == t.rows[i] || Pending(t, u, look, n, i))
  }

  /** Row `n` needs no export of its own: it is not the looked-up row of a key. */
  lemma RestoredSkip(t: Table<ComponentBody, bool>, u: Table<ComponentBody, bool>, look: map<string, nat>, n: nat)
    requires n < |t.rows| && Restored(t, u, look, n)
    requires var key := ComponentRowKey(t.rows[n].body); key == "" || key !in look || look[key] != n
    ensures Restored(t, u, look, n + 1)
  {
    forall i: nat | i < |t.rows| ensures u.rows[i] == t.rows[i] || Pending(t, u, look, n + 1, i) {
      assert u.rows[i] == t.rows[i] || Pending(t, u, look, n, i);
    }
  }

  lemma RestoredWrite(t: Table<ComponentBody, bool>, u: Table<ComponentBody, bool>, v: Table<ComponentBody, bool>,
                      look: map<string, nat>, n: nat)
    requires n < |t.rows| && Restored(t, u, look, n) && v.prior == u.prior
    requires var key := ComponentRowKey(t.rows[n].body);
             && key != "" && key in look && n <= look[key] < |t.rows|
             && ComponentRowKey(t.rows[look[key]].body) == key
             && v.rows == u.rows[look[key] := WithWeight(u.rows[look[key]], t.rows[n].body.weight)]
    ensures Restored(t, v, look, n + 1)
  {
    var id := look[ComponentRowKey(t.rows[n].body)];
    forall i: nat | i < |t.rows| ensures v.rows[i] == t.rows[i] || Pending(t, v, look, n + 1, i) {
      assert u.rows[i] == t.rows[i] || Pending(t, u, look, n, i);
    }
  }

  /** One more export restores one more row. */
  lemma RestoredStep(t: Table<ComponentBody, bool>, category: nat, p: Progress<ComponentBody, bool>, n: nat, at: Time)
    requires n < |t.rows| && t.rows[n].owner == category && t.rows[n].Current()
    requires Restored(t, p.table, Lookup(COMPONENTS, t, category, |t.rows|), n)
    ensures var look := Lookup(COMPONENTS, t, category, |t.rows|);
            var r := ItemStep(COMPONENTS, category, look, p, DumpComponent(t.rows[n].body, t.rows[n].side), at);
            r.Some? && r.value.added == p.added && Restored(t, r.value.table, look, n + 1)
  {
    var look, item := Lookup(COMPONENTS, t, category, |t.rows|), DumpComponent(t.rows[n].body, t.rows[n].side);
    ComponentExportMatches(t, category, n);
    if ComponentItemKey(item) != "" {
      ComponentItemStep(category, look, p, item, at);
      RestoredWrite(t, p.table, ItemStep(COMPONENTS, category, look, p, item, at).value.table, look, n);
    } else {
      RestoredSkip(t, p.table, look, n);
    }
  }

  /** Importing the items into `t` is accepted, adds nothing, and restores the first `n` rows. */
  ghost predicate RestoredBy(
    t: Table<ComponentBody, bool>, category: nat, items: seq<ComponentItem>, n: nat, clock: nat -> Time)
  {
    var look := Lookup(COMPONENTS, t, category, |t.rows|);
    var r := Fold(COMPONENTS, category, look, Start(t), items, clock);
    r.Some? && r.value.added == [] && Restored(t, r.value.table, look, n)
  }

  lemma RestoredByNext(
    t: Table<ComponentBody, bool>, category: nat, items: seq<ComponentItem>, more: seq<ComponentItem>, n: nat,
    clock: nat -> Time)
    requires n < |t.rows| && RestoredBy(t, category, items, n, clock)
    requires var row := t.rows[n];
             more == items + if row.owner == category && row.Current() then [DumpComponent(row.body, row.side)] else []
    ensures RestoredBy(t, category, more, n + 1, clock)
  {
    var look, row := Lookup(COMPONENTS, t, category, |t.rows|), t.rows[n];
    var p := Fold(COMPONENTS, category, look, Start(t), items, clock).value;
    if row.owner == category && row.Current() {
      RestoredStep(t, category, p, n, clock(|items|));
      FoldAppend(COMPONENTS, category, look, Start(t), items, DumpComponent(row.body, row.side), clock);
    } else {
      assert more == items;
      if ComponentRowKey(row.body) in look {
        ComponentHolderIsOwned(t, category, ComponentRowKey(row.body));
      }
      RestoredSkip(t, p.table, look, n);
    }
  }

  /**
    Processing the exports of the first `n` rows restores them: an export writes to the last row of its key, and that
    row's own export comes last.
   */
  lemma {:induction false} OwnComponentsRestored(
    t: Table<ComponentBody, bool>, category: nat, n: nat, clock: nat -> Time)
    requires n <= |t.rows|
    ensures RestoredBy(t, category, Export(COMPONENTS, t, category, n), n, clock)
  {
    if n > 0 {
      OwnComponentsRestored(t, category, n - 1, clock);
      var row, before := t.rows[n - 1], Export(COMPONENTS, t, category, n - 1);
      assert COMPONENTS.dump(row.body, row.side) == DumpComponent(row.body, row.side);
      RestoredByNext(t, category, before, Export(COMPONENTS, t, category, n), n - 1, clock);
    }
  }

  lemma ComponentHolderIsOwned(t: Table<ComponentBody, bool>, category: nat, key: string)
    requires key in Lookup(COMPONENTS, t, category, |t.rows|)
    ensures var id := Lookup(COMPONENTS, t, category, |t.rows|)[key];
            id < |t.rows| && t.rows[id].owner == category && t.rows[id].Current()
  {
    assert Holds(COMPONENTS, t, category, key, Lookup(COMPONENTS, t, category, |t.rows|)[key]);
  }

  lemma ComponentExportMatches(t: Table<ComponentBody, bool>, category: nat, i: nat)
    requires i < |t.rows| && t.rows[i].owner == category && t.rows[i].Current()
    ensures var look, key := Lookup(COMPONENTS, t, category, |t.rows|), ComponentRowKey(t.rows[i].body);
            && key in look && i <= look[key] < |t.rows| && ComponentRowKey(t.rows[look[key]].body) == key
    ensures COMPONENTS.dump(t.rows[i].body, t.rows[i].side) == DumpComponent(t.rows[i].body, t.rows[i].side)
    ensures COMPONENTS.itemKey(DumpComponent(t.rows[i].body, t.rows[i].side)) == ComponentRowKey(t.rows[i].body)
  {
    forall b ensures COMPONENTS.rowKey(b) == ComponentRowKey(b) {}
    assert Holds(COMPONENTS, t, category, ComponentRowKey(t.rows[i].body), i);
  }

  /** Importing the components of a category's own export leaves the table as it was, even where labels repeat. */
  lemma {:induction false} OwnComponentsKept(t: Table<ComponentBody, bool>, category: nat, clock: nat -> Time)
    ensures var r := Import(COMPONENTS, category, t, Export(COMPONENTS, t, category, |t.rows|), clock);
            r.Some? && r.value.added == [] && r.value.table == t
  {
    OwnComponentsRestored(t, category, |t.rows|, clock);
    var u := Import(COMPONENTS, category, t, Export(COMPONENTS, t, category, |t.rows|), clock).value.table;
    assert u.rows == t.rows;
  }
}
