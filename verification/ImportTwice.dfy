/**
  Importing one section twice. Labels may repeat, among the rows as among the items: an item acts on the row its key
  named before the import, and the next import looks up the row that the last of them left.
 */
module ImportTwice {
  import opened Common
  import opened Versioning
  import opened BundleImport

  /** The body of the last current row of the key, once the items have been imported into `t`. */
  function LastBody<I, B, M>(sec: Section<I, B, M>, t: Table<B, M>, cat: nat, items: seq<I>, key: string): Option<B> {
    var look := Lookup(sec, t, cat, |t.rows|);
    if items == [] then
      if key in look then Some(t.rows[look[key]].body) else None
    else
      var n := |items| - 1;
      var before := LastBody(sec, t, cat, items[..n], key);
      if sec.itemKey(items[n]) != key then before
      else if key in look && sec.react(t.rows[look[key]].body, items[n]).Keep? then before
      else Outcome(sec, t, cat, items[n])
  }

  /** Row `id` is the last of the category's current rows for the key. */
  ghost predicate LastHolder<I, B, M>(sec: Section<I, B, M>, u: Table<B, M>, cat: nat, key: string, id: nat) {
    Holds(sec, u, cat, key, id) && forall j: nat :: Holds(sec, u, cat, key, j) ==> j <= id
  }

  /** The last current row of the key has the body, or there is none. */
  ghost predicate Latest<I, B, M>(sec: Section<I, B, M>, u: Table<B, M>, cat: nat, key: string, body: Option<B>) {
    match body
    case None => forall id: nat :: !Holds(sec, u, cat, key, id)
    case Some(b) => exists id: nat :: LastHolder(sec, u, cat, key, id) && u.rows[id].body == b
  }

  /** The lookup of the next import finds it. */
  lemma LookupFindsLatest<I, B, M>(sec: Section<I, B, M>, u: Table<B, M>, cat: nat, key: string, body: Option<B>)
    requires Latest(sec, u, cat, key, body)
    ensures var look := Lookup(sec, u, cat, |u.rows|);
            (key in look <==> body.Some?) && (key in look ==> u.rows[look[key]].body == body.value)
  {
    var look := Lookup(sec, u, cat, |u.rows|);
    if body.Some? {
      var id: nat :| LastHolder(sec, u, cat, key, id) && u.rows[id].body == body.value;
      assert Holds(sec, u, cat, key, look[key]);
    }
  }

  lemma LookedUpIsLatest<I, B, M>(sec: Section<I, B, M>, t: Table<B, M>, cat: nat, key: string)
    ensures Latest(sec, t, cat, key, LastBody(sec, t, cat, [], key))
  {
    var look := Lookup(sec, t, cat, |t.rows|);
    if key in look {
      assert LastHolder(sec, t, cat, key, look[key]);
    }
  }

  /** A new row is the last one of its key. */
  lemma InsertIsLatest<I, B, M>(
    sec: Section<I, B, M>, u: Table<B, M>, cat: nat, key: string, last: Option<B>, body: B, side: M)
    requires Latest(sec, u, cat, key, last)
    ensures Latest(sec, Apply(u, Insert(cat, body, side)), cat, key,
                   if sec.rowKey(body) == key then Some(body) else last)
  {
    var v := Apply(u, Insert(cat, body, side));
    forall i: nat
      ensures Holds(sec, v, cat, key, i) <==> Holds(sec, u, cat, key, i) || (i == |u.rows| && sec.rowKey(body) == key)
    {
    }
    if sec.rowKey(body) == key {
      assert LastHolder(sec, v, cat, key, |u.rows|);
    } else if last.Some? {
      var id: nat :| LastHolder(sec, u, cat, key, id) && u.rows[id].body == last.value;
      assert LastHolder(sec, v, cat, key, id);
    }
  }

  /** So is a successor, even of a row that was replaced before. */
  lemma SupersedeIsLatest<I, B, M>(
    sec: Section<I, B, M>, u: Table<B, M>, cat: nat, key: string, last: Option<B>, row: nat, body: B, at: Time)
    requires Latest(sec, u, cat, key, last) && row < |u.rows| && u.rows[row].owner == cat
    requires sec.rowKey(body) == sec.rowKey(u.rows[row].body)
    ensures Latest(sec, Apply(u, Supersede(row, body, at)), cat, key,
                   if sec.rowKey(body) == key then Some(body) else last)
  {
    var v := Apply(u, Supersede(row, body, at));
    if sec.rowKey(body) == key {
      assert LastHolder(sec, v, cat, key, |u.rows|);
    } else {
      forall i: nat ensures Holds(sec, v, cat, key, i) <==> Holds(sec, u, cat, key, i) {}
      if last.Some? {
        var id: nat :| LastHolder(sec, u, cat, key, id) && u.rows[id].body == last.value;
        assert LastHolder(sec, v, cat, key, id);
      }
    }
  }

  /** After any import of a versioned section, the last current row of every key has the body `LastBody`. */
  lemma {:induction false} ImportLeavesLast<I(!new), B(!new), M>(
    sec: Section<I, B, M>, cat: nat, t: Table<B, M>, items: seq<I>, clock: nat -> Time, key: string)
    requires KeepsKeys(sec) && NeverOverwrites(sec) && key != ""
    requires Import(sec, cat, t, items, clock).Some?
    ensures Latest(sec, Import(sec, cat, t, items, clock).value.table, cat, key, LastBody(sec, t, cat, items, key))
  {
    if items == [] {
      LookedUpIsLatest(sec, t, cat, key);
    } else {
      var n, look := |items| - 1, Lookup(sec, t, cat, |t.rows|);
      ImportLeavesLast(sec, cat, t, items[..n], clock, key);
      var u, other := Import(sec, cat, t, items[..n], clock).value.table, sec.itemKey(items[n]);
      var last := LastBody(sec, t, cat, items[..n], key);
      if other != "" {
        if other in look {
          LookedUpRows(sec, cat, t, items[..n], clock, other);
          OwnersStay(sec, cat, t, items[..n], clock, look[other]);
          assert Holds(sec, t, cat, other, look[other]);
          var reaction := sec.react(u.rows[look[other]].body, items[n]);
          if reaction.Replace? {
            SupersedeIsLatest(sec, u, cat, key, last, look[other], reaction.body, clock(n));
          }
        } else {
          var (body, side) := sec.create(items[n]).value;
          InsertIsLatest(sec, u, cat, key, last, body, side);
        }
      }
    }
  }

  lemma OwnersStay<I(!new), B(!new), M>(
    sec: Section<I, B, M>, cat: nat, t: Table<B, M>, items: seq<I>, clock: nat -> Time, id: nat)
    requires NeverOverwrites(sec) && Import(sec, cat, t, items, clock).Some? && id < |t.rows|
    ensures id < |Import(sec, cat, t, items, clock).value.table.rows|
    ensures Import(sec, cat, t, items, clock).value.table.rows[id].owner == t.rows[id].owner
  {
    if items != [] {
      var n, look := |items| - 1, Lookup(sec, t, cat, |t.rows|);
      OwnersStay(sec, cat, t, items[..n], clock, id);
      ImportIsReplay(sec, cat, look, t, items[..n], clock);
    }
  }

  /** Every labelled item would leave the last row of its key as it is. */
  ghost predicate Convergent<I, B, M>(sec: Section<I, B, M>, t: Table<B, M>, cat: nat, items: seq<I>) {
    forall k :: 0 <= k < |items| && sec.itemKey(items[k]) != "" ==>
      match LastBody(sec, t, cat, items, sec.itemKey(items[k]))
      case None => false
      case Some(body) => sec.react(body, items[k]).Keep?
  }

  /** The second import keeps every row exactly when the payload converges. */
  lemma {:induction false} SecondImportKeepsIff<I(!new), B(!new), M>(
    sec: Section<I, B, M>, cat: nat, t: Table<B, M>, items: seq<I>, clock: nat -> Time)
    requires KeepsKeys(sec) && NeverOverwrites(sec) && Import(sec, cat, t, items, clock).Some?
    ensures var u := Import(sec, cat, t, items, clock).value.table;
            AllKeep(sec, u, Lookup(sec, u, cat, |u.rows|), items) <==> Convergent(sec, t, cat, items)
  {
    var u := Import(sec, cat, t, items, clock).value.table;
    forall k | 0 <= k < |items| && sec.itemKey(items[k]) != ""
      ensures var look, key := Lookup(sec, u, cat, |u.rows|), sec.itemKey(items[k]);
              var last := LastBody(sec, t, cat, items, key);
              (key in look <==> last.Some?) && (key in look ==> u.rows[look[key]].body == last.value)
    {
      ImportLeavesLast(sec, cat, t, items, clock, sec.itemKey(items[k]));
      LookupFindsLatest(sec, u, cat, sec.itemKey(items[k]), LastBody(sec, t, cat, items, sec.itemKey(items[k])));
    }
  }

  /** The import succeeds and leaves no more rows than before. */
  predicate AddsNothing<I, B, M>(sec: Section<I, B, M>, cat: nat, t: Table<B, M>, items: seq<I>, clock: nat -> Time) {
    var r := Import(sec, cat, t, items, clock);
    r.Some? && |r.value.table.rows| == |t.rows|
  }

  /**
    Importing a versioned section twice equals importing it once, the second time without an edit, if and only if the
    payload converges; and if it does not, the second import adds a row.
   */
  lemma {:induction false} ImportTwiceIff<I(!new), B(!new), M>(
    sec: Section<I, B, M>, cat: nat, t: Table<B, M>, items: seq<I>, clock: nat -> Time, again: nat -> Time)
    requires KeepsKeys(sec) && NeverOverwrites(sec) && Import(sec, cat, t, items, clock).Some?
    ensures var u := Import(sec, cat, t, items, clock).value.table;
            && (Convergent(sec, t, cat, items) <==> Import(sec, cat, u, items, again) == Some(Start(u)))
            && (Convergent(sec, t, cat, items) <==> AddsNothing(sec, cat, u, items, again))
  {
    SecondImportKeepsIff(sec, cat, t, items, clock);
    var u := Import(sec, cat, t, items, clock).value.table;
    var look := Lookup(sec, u, cat, |u.rows|);
    if Convergent(sec, t, cat, items) {
      KeepingChangesNothing(sec, cat, look, u, items, again);
    } else if AddsNothing(sec, cat, u, items, again) {
      ChangingNothingKeeps(sec, cat, look, u, items, again);
    }
  }

  /** An item that was imported has an outcome. */
  lemma {:induction false} ImportedItemsHaveOutcomes<I(!new), B(!new), M>(
    sec: Section<I, B, M>, cat: nat, t: Table<B, M>, items: seq<I>, clock: nat -> Time)
    requires NeverOverwrites(sec) && Import(sec, cat, t, items, clock).Some?
    ensures forall k :: 0 <= k < |items| && sec.itemKey(items[k]) != "" ==> Outcome(sec, t, cat, items[k]).Some?
  {
    if items != [] {
      var n := |items| - 1;
      ImportedItemsHaveOutcomes(sec, cat, t, items[..n], clock);
      forall k | 0 <= k < |items| && sec.itemKey(items[k]) != "" ensures Outcome(sec, t, cat, items[k]).Some? {
        if k < n {
          assert items[..n][k] == items[k];
        } else if sec.itemKey(items[n]) in Lookup(sec, t, cat, |t.rows|) {
          LookedUpRows(sec, cat, t, items[..n], clock, sec.itemKey(items[n]));
        }
      }
    }
  }

  /** A key that an imported item mentions has a last row. */
  lemma {:induction false} MentionedKeysHaveBodies<I, B, M>(
    sec: Section<I, B, M>, t: Table<B, M>, cat: nat, items: seq<I>, key: string)
    requires forall k :: 0 <= k < |items| && sec.itemKey(items[k]) == key ==> Outcome(sec, t, cat, items[k]).Some?
    ensures Mentions(sec, items, key) || key in Lookup(sec, t, cat, |t.rows|) ==>
              LastBody(sec, t, cat, items, key).Some?
  {
    if items != [] {
      var n := |items| - 1;
      assert forall k :: 0 <= k < n ==> items[..n][k] == items[k];
      MentionedKeysHaveBodies(sec, t, cat, items[..n], key);
      assert items == items[..n] + [items[n]];
      MentionsAppend(sec, items[..n], items[n], key);
    }
  }

  /** Where no item can fail, the second import of a payload whose first import succeeded also succeeds. */
  lemma {:induction false} SecondImportSucceeds<I(!new), B(!new), M>(
    sec: Section<I, B, M>, cat: nat, t: Table<B, M>, items: seq<I>, clock: nat -> Time, again: nat -> Time)
    requires KeepsKeys(sec) && NeverOverwrites(sec) && Import(sec, cat, t, items, clock).Some?
    requires forall b, i :: !sec.react(b, i).Fail?
    ensures Import(sec, cat, Import(sec, cat, t, items, clock).value.table, items, again).Some?
  {
    var u := Import(sec, cat, t, items, clock).value.table;
    ImportedItemsHaveOutcomes(sec, cat, t, items, clock);
    forall k | 0 <= k < |items| && sec.itemKey(items[k]) != ""
      ensures sec.itemKey(items[k]) in Lookup(sec, u, cat, |u.rows|)
    {
      var key := sec.itemKey(items[k]);
      MentionedKeysHaveBodies(sec, t, cat, items, key);
      assert Mentions(sec, items, key);
      ImportLeavesLast(sec, cat, t, items, clock, key);
      LookupFindsLatest(sec, u, cat, key, LastBody(sec, t, cat, items, key));
    }
    MatchedItemsSucceed(sec, cat, Lookup(sec, u, cat, |u.rows|), u, items, again);
  }

  lemma {:induction false} MatchedItemsSucceed<I(!new), B(!new), M>(
    sec: Section<I, B, M>, cat: nat, look: map<string, nat>, t: Table<B, M>, items: seq<I>, clock: nat -> Time)
    requires forall b, i :: !sec.react(b, i).Fail?
    requires forall key :: key in look ==> look[key] < |t.rows|
    requires forall k :: 0 <= k < |items| && sec.itemKey(items[k]) != "" ==> sec.itemKey(items[k]) in look
    ensures Fold(sec, cat, look, Start(t), items, clock).Some?
  {
    if items != [] {
      var n := |items| - 1;
      assert forall k :: 0 <= k < n ==> items[..n][k] == items[k];
      MatchedItemsSucceed(sec, cat, look, t, items[..n], clock);
      ImportIsReplay(sec, cat, look, t, items[..n], clock);
    }
  }

  // ------------------------------------------------------------------------------------------
  // Convergence, item by item
  // ------------------------------------------------------------------------------------------

  /** The last item with the key. */
  function LastItem<I, B, M>(sec: Section<I, B, M>, items: seq<I>, key: string): (r: Option<I>)
    ensures r.Some? <==> Mentions(sec, items, key)
    ensures r.Some? ==> r.value in items && sec.itemKey(r.value) == key
  {
    if items == [] then None
    else
      var n := |items| - 1;
      MentionsAppend(sec, items[..n], items[n], key);
      assert items == items[..n] + [items[n]];
      if sec.itemKey(items[n]) == key then Some(items[n]) else LastItem(sec, items[..n], key)
  }

  /** The two items leave the same bodies alone. */
  ghost predicate SameDemand<I, B(!new), M>(sec: Section<I, B, M>, i: I, j: I) {
    forall b :: sec.react(b, i).Keep? <==> sec.react(b, j).Keep?
  }

  /** The item leaves the row it has itself made as it is. */
  predicate Settles<I, B, M>(sec: Section<I, B, M>, t: Table<B, M>, cat: nat, item: I) {
    match Outcome(sec, t, cat, item)
    case None => false
    case Some(body) => sec.react(body, item).Keep?
  }

  /** The last body is the looked-up row's if every item of the key keeps that row. */
  lemma {:induction false} KeptBodyIsLast<I, B, M>(
    sec: Section<I, B, M>, t: Table<B, M>, cat: nat, items: seq<I>, key: string)
    requires key in Lookup(sec, t, cat, |t.rows|)
    requires var row := t.rows[Lookup(sec, t, cat, |t.rows|)[key]];
             forall i :: i in items && sec.itemKey(i) == key ==> sec.react(row.body, i).Keep?
    ensures LastBody(sec, t, cat, items, key) == Some(t.rows[Lookup(sec, t, cat, |t.rows|)[key]].body)
  {
    if items != [] {
      KeptBodyIsLast(sec, t, cat, items[..|items| - 1], key);
    }
  }

  /** The last body is the last item's outcome if that item changes its row, or makes one. */
  lemma {:induction false} LastOutcomeIsLast<I, B, M>(
    sec: Section<I, B, M>, t: Table<B, M>, cat: nat, items: seq<I>, key: string)
    requires LastItem(sec, items, key).Some?
    requires var look, last := Lookup(sec, t, cat, |t.rows|), LastItem(sec, items, key).value;
             key in look ==> !sec.react(t.rows[look[key]].body, last).Keep?
    ensures LastBody(sec, t, cat, items, key) == Outcome(sec, t, cat, LastItem(sec, items, key).value)
  {
    var n := |items| - 1;
    if sec.itemKey(items[n]) != key {
      LastOutcomeIsLast(sec, t, cat, items[..n], key);
    }
  }

  /** If every item of a key makes the demand of the last one, the last body is the last item's outcome. */
  lemma {:induction false} AgreeingItemsLast<I, B(!new), M>(
    sec: Section<I, B, M>, t: Table<B, M>, cat: nat, items: seq<I>, key: string)
    requires LastItem(sec, items, key).Some?
    requires forall i :: i in items && sec.itemKey(i) == key ==> SameDemand(sec, i, LastItem(sec, items, key).value)
    ensures LastBody(sec, t, cat, items, key) == Outcome(sec, t, cat, LastItem(sec, items, key).value)
  {
    var look, last := Lookup(sec, t, cat, |t.rows|), LastItem(sec, items, key).value;
    if key in look && sec.react(t.rows[look[key]].body, last).Keep? {
      KeptBodyIsLast(sec, t, cat, items, key);
    } else {
      LastOutcomeIsLast(sec, t, cat, items, key);
    }
  }

  /** The payload converges if the last item of each key settles and the others of the key make the same demand. */
  lemma {:induction false} AgreeingItemsConverge<I, B(!new), M>(
    sec: Section<I, B, M>, t: Table<B, M>, cat: nat, items: seq<I>)
    requires forall i :: i in items && sec.itemKey(i) != "" ==>
               && LastItem(sec, items, sec.itemKey(i)).Some?
               && SameDemand(sec, i, LastItem(sec, items, sec.itemKey(i)).value)
               && Settles(sec, t, cat, LastItem(sec, items, sec.itemKey(i)).value)
    ensures Convergent(sec, t, cat, items)
  {
    forall k | 0 <= k < |items| && sec.itemKey(items[k]) != ""
      ensures LastBody(sec, t, cat, items, sec.itemKey(items[k])).Some?
      ensures sec.react(LastBody(sec, t, cat, items, sec.itemKey(items[k])).value, items[k]).Keep?
    {
      assert items[k] in items;
      AgreeingItemsLast(sec, t, cat, items, sec.itemKey(items[k]));
    }
  }

  /** Conversely, in a payload that converges the last item of each key settles, and every item keeps the last body. */
  lemma {:induction false} ConvergentItemsSettle<I, B, M>(
    sec: Section<I, B, M>, t: Table<B, M>, cat: nat, items: seq<I>, item: I)
    requires Convergent(sec, t, cat, items) && item in items && sec.itemKey(item) != ""
    ensures var last, key := LastItem(sec, items, sec.itemKey(item)), sec.itemKey(item);
            && last.Some? && Settles(sec, t, cat, last.value)
            && LastBody(sec, t, cat, items, key).Some?
            && sec.react(LastBody(sec, t, cat, items, key).value, item).Keep?
            && sec.react(LastBody(sec, t, cat, items, key).value, last.value).Keep?
  {
    var key, look := sec.itemKey(item), Lookup(sec, t, cat, |t.rows|);
    var k :| 0 <= k < |items| && items[k] == item;
    assert Mentions(sec, items, key);
    var last := LastItem(sec, items, key).value;
    var j :| 0 <= j < |items| && items[j] == last;
    if !(key in look && sec.react(t.rows[look[key]].body, last).Keep?) {
      LastOutcomeIsLast(sec, t, cat, items, key);
    }
  }
}
