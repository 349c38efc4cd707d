/** Runs of the category store, from an empty one, that reach the failures whose exact conditions are proved before. */
module Counterexamples {
  import opened Common
  import opened Text
  import opened Versioning
  import opened BundleImport
  import opened ImportTwice
  import opened CategoryStore
  import opened CategoryTheorems
  import opened ImportTheorems

  /** A bundle with prompts only. */
  function Bundle(prompts: seq<PromptItem>): Op {
    ImportBundle(Payload("Cranes", "cranes", "active", 0, 1, [], prompts, [], [], []), 0, n => 100 + n, n => 100 + n)
  }

  function Prompt(title: string, displayOrder: int): PromptBody {
    PromptBody(title, "text", true, displayOrder)
  }

  function Item(title: string, displayOrder: int): PromptItem {
    DumpPrompt(Prompt(title, displayOrder), true)
  }

  const NEW_CATEGORY: Op := CreateCategory("Cranes", "cranes", 0, 0)

  lemma KeysOf(title: string, displayOrder: int)
    requires title == "a" || title == " "
    ensures var key := if title == "a" then "a" else "";
            && Normalize(title) == key && PROMPTS.rowKey(Prompt(title, displayOrder)) == key
            && PROMPTS.itemKey(Item(title, displayOrder)) == key
  {
    assert title == "a" ==> LeftStrip(title) == "a" && RightStrip("a") == "a" && Lower("a") == "a";
    if title == " " {
      assert title[1..] == "" && LeftStrip(title) == LeftStrip("") && LeftStrip("") == "";
      assert RightStrip("") == "" && |Lower("")| == 0;
    }
    assert PROMPTS.rowKey(Prompt(title, displayOrder)) == PromptRowKey(Prompt(title, displayOrder));
    assert PROMPTS.itemKey(Item(title, displayOrder)) == PromptItemKey(Item(title, displayOrder));
  }

  lemma RunAppend(s: Store, ops: seq<Op>, op: Op)
    ensures Run(s, ops + [op]) == Step(Run(s, ops), op)
  {
    assert (ops + [op])[..|ops|] == ops;
  }

  /** A new category with the given prompts. */
  function Setup(prompts: seq<PromptBody>): seq<Op> {
    if prompts == [] then [NEW_CATEGORY]
    else Setup(prompts[..|prompts| - 1]) + [AddPrompt(0, prompts[|prompts| - 1])]
  }

  /** The store with a category and the prompts. */
  function StoreWith(prompts: seq<PromptBody>): Store {
    EMPTY_STORE.(
      categories := Table([Row(0, CategoryBody("Cranes", "cranes", "active", 0), Option.None, 1, Option.None)],
                          [Option.None]),
      prompts := Table(seq(|prompts|, k requires 0 <= k < |prompts| => Row(0, prompts[k], true, 1, Option.None)),
                       seq(|prompts|, _ => Option.None)))
  }

  lemma CategoryAdded()
    ensures Step(EMPTY_STORE, NEW_CATEGORY).categories == StoreWith([]).categories
    ensures Step(EMPTY_STORE, NEW_CATEGORY) == StoreWith([])
  {
    OneEdit(EMPTY_STORE.categories, CategoryEdits(EMPTY_STORE, NEW_CATEGORY)[0]);
    assert StoreWith([]).prompts == Empty();
  }

  lemma PromptAdded(prompts: seq<PromptBody>, prompt: PromptBody)
    ensures Step(StoreWith(prompts), AddPrompt(0, prompt)) == StoreWith(prompts + [prompt])
  {
    var s, op := StoreWith(prompts), AddPrompt(0, prompt);
    OneEdit(s.prompts, Insert(0, prompt, true));
    assert PromptEdits(s, op) == [Insert(0, prompt, true)];
    assert Apply(s.prompts, Insert(0, prompt, true)).rows == StoreWith(prompts + [prompt]).prompts.rows;
    assert Apply(s.prompts, Insert(0, prompt, true)).prior == StoreWith(prompts + [prompt]).prompts.prior;
  }

  lemma {:induction false} SetupStore(prompts: seq<PromptBody>)
    ensures Run(EMPTY_STORE, Setup(prompts)) == StoreWith(prompts)
  {
    if prompts == [] {
      CategoryAdded();
      RunAppend(EMPTY_STORE, [], NEW_CATEGORY);
      assert [] + [NEW_CATEGORY] == [NEW_CATEGORY];
    } else {
      var n := |prompts| - 1;
      SetupStore(prompts[..n]);
      PromptAdded(prompts[..n], prompts[n]);
      RunAppend(EMPTY_STORE, Setup(prompts[..n]), AddPrompt(0, prompts[n]));
      assert prompts[..n] + [prompts[n]] == prompts;
    }
  }

  lemma SetupIsLive(prompts: seq<PromptBody>)
    ensures BySlug(StoreWith(prompts), "cranes") == Some(0)
    ensures SlugsUnique(StoreWith(prompts).categories)
  {
  }

  lemma FreshRowsAreChained<B, M>(t: Table<B, M>)
    requires |t.rows| == |t.prior| && forall i :: 0 <= i < |t.rows| ==> t.prior[i].None?
    requires forall i :: 0 <= i < |t.rows| ==> t.rows[i].version == 1 && t.rows[i].Current()
    ensures Chained(t)
  {
  }

  lemma SetupIsChained(prompts: seq<PromptBody>)
    ensures StoreChained(StoreWith(prompts))
  {
    FreshRowsAreChained(StoreWith(prompts).categories);
    FreshRowsAreChained(StoreWith(prompts).prompts);
  }

  /** A bundle of prompts is accepted if its prompt section is. */
  lemma BundleAccepted(s: Store, prompts: seq<PromptItem>)
    requires ImportPrompts(s, Bundle(prompts)).Some?
    ensures Refusal(s, Bundle(prompts)).None?
  {
  }

  /** Items that match no row and carry what a new row needs are accepted. */
  lemma {:induction false} NewItemsSucceed<I, B, M>(
    sec: Section<I, B, M>, cat: nat, t: Table<B, M>, items: seq<I>, clock: nat -> Time)
    requires Unowned(t, cat) && forall i :: i in items ==> sec.create(i).Some?
    ensures Import(sec, cat, t, items, clock).Some?
  {
    LookupOfUnowned(sec, t, cat, |t.rows|);
    if items != [] {
      NewItemsSucceed(sec, cat, t, items[..|items| - 1], clock);
    }
  }

  /** Both items of the bundle change the one prompt. */
  lemma BothItemsReplace(t: Table<PromptBody, bool>, items: seq<PromptItem>)
    requires t == StoreWith([Prompt("a", 0)]).prompts && items == [Item("a", 1), Item("a", 2)]
    ensures var look := Lookup(PROMPTS, t, 0, |t.rows|);
            "a" in look && DoubleChange(PROMPTS, t, look, items)
  {
    KeysOf("a", 0);
    KeysOf("a", 1);
    KeysOf("a", 2);
    var look := Lookup(PROMPTS, t, 0, |t.rows|);
    assert Holds(PROMPTS, t, 0, "a", 0);
    forall i | i in items ensures Replaces(PROMPTS, t, look, i) {
      assert PROMPTS.react(Prompt("a", 0), i) == ReactPrompt(Prompt("a", 0), i);
    }
    assert items[..1] == [items[0]];
    assert ReplacesKey(PROMPTS, t, look, items[..1], "a");
  }

  lemma MatchedBundleAccepted(s: Store, items: seq<PromptItem>)
    requires BySlug(s, "cranes") == Some(0)
    requires forall i :: i in items ==> PROMPTS.itemKey(i) in Lookup(PROMPTS, s.prompts, 0, |s.prompts.rows|)
    ensures Refusal(s, Bundle(items)).None?
  {
    PromptLaws();
    var look := Lookup(PROMPTS, s.prompts, 0, |s.prompts.rows|);
    MatchedItemsSucceed(PROMPTS, 0, look, s.prompts, items, Bundle(items).clock);
    BundleAccepted(s, items);
  }

  /** A chain branches: one bundle changes one prompt twice. */
  lemma ImportCanBranchAChain()
    ensures var ops := Setup([Prompt("a", 0)]) + [Bundle([Item("a", 1), Item("a", 2)])];
            !NoDoubleChanges(EMPTY_STORE, ops) && !StoreChained(Run(EMPTY_STORE, ops))
  {
    var ops, items := Setup([Prompt("a", 0)]), [Item("a", 1), Item("a", 2)];
    var s := StoreWith([Prompt("a", 0)]);
    SetupStore([Prompt("a", 0)]);
    SetupIsLive([Prompt("a", 0)]);
    SetupIsChained([Prompt("a", 0)]);
    RunAppend(EMPTY_STORE, ops, Bundle(items));
    KeysOf("a", 1);
    KeysOf("a", 2);
    BothItemsReplace(s.prompts, items);
    MatchedBundleAccepted(s, items);
    assert PromptDoubleChange(s, Bundle(items));
    StepKeepsChainsIff(s, Bundle(items));
    assert (ops + [Bundle(items)])[..|ops|] == ops;
  }

  lemma NewBundleAccepted(items: seq<PromptItem>)
    requires forall i :: i in items ==> CreatePrompt(i).Some?
    ensures Refusal(EMPTY_STORE, Bundle(items)).None?
  {
    forall i | i in items ensures PROMPTS.create(i).Some? {
      assert PROMPTS.create(i) == CreatePrompt(i);
    }
    NewItemsSucceed(PROMPTS, 0, EMPTY_STORE.prompts, items, Bundle(items).clock);
    BundleAccepted(EMPTY_STORE, items);
  }

  lemma UnsettledBundleDiffers(items: seq<PromptItem>)
    requires !PromptsSettle(items) && forall i :: i in items ==> CreatePrompt(i).Some?
    ensures Refusal(EMPTY_STORE, Bundle(items)).None?
    ensures Run(EMPTY_STORE, [Bundle(items), Bundle(items)]) != Run(EMPTY_STORE, [Bundle(items)])
  {
    var op := Bundle(items);
    NewBundleAccepted(items);
    ImportIsIdempotentIff(EMPTY_STORE, op, op);
    RunAppend(EMPTY_STORE, [], op);
    RunAppend(EMPTY_STORE, [op], op);
    assert [] + [op] == [op] && [op] + [op] == [op, op];
  }

  /** Importing twice differs from importing once: for a prompt that leaves a part out, and for a repeated label. */
  lemma ImportCanDifferTheSecondTime(items: seq<PromptItem>)
    requires items == [Item("a", 1).(required := Absent)] || items == [Item("a", 1), Item("a", 2)]
    ensures Refusal(EMPTY_STORE, Bundle(items)).None?
    ensures Run(EMPTY_STORE, [Bundle(items), Bundle(items)]) != Run(EMPTY_STORE, [Bundle(items)])
  {
    KeysOf("a", 1);
    KeysOf("a", 2);
    var last := items[|items| - 1];
    assert PromptItemKey(items[0]) == "a" && PromptItemKey(last) == "a";
    assert PROMPTS.itemKey(last) == PromptItemKey(last);
    assert LastItem(PROMPTS, items, "a") == Some(last);
    assert items[0] in items && !(CompletePrompt(last) && SamePrompt(items[0], last));
    UnsettledBundleDiffers(items);
  }

  lemma PromptsDisagree()
    ensures !AgreeingLabels(StoreWith([Prompt("a", 1), Prompt("a", 2)]), 0)
  {
    var t := StoreWith([Prompt("a", 1), Prompt("a", 2)]).prompts;
    KeysOf("a", 1);
    KeysOf("a", 2);
    assert Holds(PROMPTS, t, 0, "a", 0) && Holds(PROMPTS, t, 0, "a", 1);
    assert PROMPTS.dump(Prompt("a", 2), true) == Item("a", 2);
    assert PROMPTS.react(Prompt("a", 1), Item("a", 2)) == ReactPrompt(Prompt("a", 1), Item("a", 2));
    assert !SameKeySameContent(PROMPTS, t, 0);
  }

  /** A category's own export changes it: two of its prompts share a label and differ. */
  lemma OwnExportCanChange(op: Op)
    requires op.ImportBundle?
    requires var s := Run(EMPTY_STORE, Setup([Prompt("a", 1), Prompt("a", 2)]));
             0 < |s.categories.rows| && op.payload == ExportPayload(s, 0)
    ensures var s := Run(EMPTY_STORE, Setup([Prompt("a", 1), Prompt("a", 2)])); Step(s, op) != s
  {
    SetupStore([Prompt("a", 1), Prompt("a", 2)]);
    SetupIsLive([Prompt("a", 1), Prompt("a", 2)]);
    PromptsDisagree();
    OwnExportChangesNothingIff(StoreWith([Prompt("a", 1), Prompt("a", 2)]), op, 0);
  }

  /** After the rename, the slug names the successor, and the prompt is still with the superseded row. */
  lemma RenamedStore()
    ensures var s, t := Step(StoreWith([Prompt("a", 1)]), RENAME), StoreWith([Prompt("a", 1)]);
            && |s.categories.rows| == 2 && BySlug(s, "cranes") == Some(1)
            && s.prompts == t.prompts && s.rules == t.rules
            && s.categories.rows[0].body.slug == "cranes"
  {
    var t := StoreWith([Prompt("a", 1)]);
    SetupIsLive([Prompt("a", 1)]);
    OneEdit(t.categories, CategoryEdits(t, RENAME)[0]);
    assert CategoryEdits(t, RENAME) == [CategoryEdits(t, RENAME)[0]];
  }

  lemma ExportOfOnePrompt(t: Table<PromptBody, bool>)
    requires t == StoreWith([Prompt("a", 1)]).prompts
    ensures Export(PROMPTS, t, 0, |t.rows|) == [Item("a", 1)]
  {
    assert PROMPTS.dump(Prompt("a", 1), true) == Item("a", 1);
    assert Export(PROMPTS, t, 0, 0) == [];
  }

  /** The export of a superseded category changes the store: its prompt is added to the successor, which has none. */
  lemma SupersededExportCanChange(op: Op)
    requires op.ImportBundle?
    requires var s := Run(EMPTY_STORE, Setup([Prompt("a", 1)]) + [RENAME]);
             0 < |s.categories.rows| && op.payload == ExportPayload(s, 0)
    ensures var s := Run(EMPTY_STORE, Setup([Prompt("a", 1)]) + [RENAME]);
            Refusal(s, op).None? && AgreeingLabels(s, 0) && Step(s, op) != s
  {
    var s := Step(StoreWith([Prompt("a", 1)]), RENAME);
    SetupStore([Prompt("a", 1)]);
    RunAppend(EMPTY_STORE, Setup([Prompt("a", 1)]), RENAME);
    RenamedStore();
    ExportOfOnePrompt(s.prompts);
    LookupOfUnowned(PROMPTS, s.prompts, 1, |s.prompts.rows|);
    KeysOf("a", 1);
    assert !Kept(PROMPTS, s.prompts, 1, [Item("a", 1)]) by {
      assert PROMPTS.itemKey([Item("a", 1)][0]) == "a";
    }
    OnePromptAgrees(s.prompts);
    OwnExportChangesNothingIff(s, op, 0);
  }

  const RENAME: Op := UpdateCategory(0, CategoryPatch(Present("Tower cranes"), Absent, Absent, Absent), 10)

  lemma OnePromptAgrees(t: Table<PromptBody, bool>)
    requires t == StoreWith([Prompt("a", 1)]).prompts
    ensures SameKeySameContent(PROMPTS, t, 0)
  {
    assert PROMPTS.dump(Prompt("a", 1), true) == Item("a", 1);
    assert PROMPTS.react(Prompt("a", 1), Item("a", 1)) == ReactPrompt(Prompt("a", 1), Item("a", 1));
  }

  /** A bundle loses a prompt on the way: its label is a space. */
  lemma MovingCanLoseAPrompt(op: Op)
    requires op.ImportBundle?
    requires var s := Run(EMPTY_STORE, Setup([Prompt(" ", 1)]));
             0 < |s.categories.rows| && op.payload == ExportPayload(s, 0)
    ensures Refusal(EMPTY_STORE, op).None?
    ensures 0 < |Step(EMPTY_STORE, op).categories.rows|
    ensures ExportPayload(Step(EMPTY_STORE, op), 0) != op.payload.(version := 1)
  {
    var s := Run(EMPTY_STORE, Setup([Prompt(" ", 1)]));
    SetupStore([Prompt(" ", 1)]);
    KeysOf(" ", 1);
    assert PROMPTS.dump(Prompt(" ", 1), true) == Item(" ", 1);
    assert Export(PROMPTS, s.prompts, 0, 0) == [];
    assert op.payload.prompts == [Item(" ", 1)];
    assert PROMPTS.itemKey(op.payload.prompts[0]) == "";
    NewTarget(EMPTY_STORE, op.payload);
    RoundTripIff(s, 0, EMPTY_STORE, op);
    ImportReported(EMPTY_STORE, op);
  }

  /** A prompt that was edited at 10 answers, under its new id, for the instant 5. */
  lemma PastIsAnswered()
    ensures var edit := UpdatePrompt(0, 0, PromptPatch(Present("b"), Absent, Absent, Absent, Absent), 10);
            VersionAt(Run(EMPTY_STORE, Setup([Prompt("a", 1)]) + [edit]).prompts, 1, 5).Some?
  {
    var edit := UpdatePrompt(0, 0, PromptPatch(Present("b"), Absent, Absent, Absent, Absent), 10);
    SetupStore([Prompt("a", 1)]);
    RunAppend(EMPTY_STORE, Setup([Prompt("a", 1)]), edit);
    SuccessorAnswersForThePast(Run(EMPTY_STORE, Setup([Prompt("a", 1)])), edit, 5);
  }
}
