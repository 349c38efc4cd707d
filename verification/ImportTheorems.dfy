/** Importing a bundle twice, importing a category's own export, and moving a bundle to another store. */
module ImportTheorems {
  import opened Common
  import opened Versioning
  import opened BundleImport
  import opened ImportTwice
  import opened CategoryStore
  import opened CategoryTheorems
  import opened ComponentTheorems

  // ------------------------------------------------------------------------------------------
  // Which payloads converge
  // ------------------------------------------------------------------------------------------

  /** The item gives every part of the prompt's body. */
  predicate CompletePrompt(i: PromptItem) {
    i.responseType.Present? && i.required.Present? && i.displayOrder.Present?
  }

  /**
    The item gives the rule's field and operator, and leaves out its value or actions only if the row it matches, if
    any, has none either.
   */
  predicate StableRule(t: Table<RuleBody, bool>, category: nat, i: RuleItem) {
    var look := Lookup(RULES, t, category, |t.rows|);
    var matched := RuleItemKey(i) in look;
    && i.conditionField.Present? && i.conditionOperator.Present?
    && (i.conditionValue.Present? || !matched || t.rows[look[RuleItemKey(i)]].body.conditionValue.None?)
    && (i.actions.Present? || !matched || t.rows[look[RuleItemKey(i)]].body.actions == map[])
  }

  /** The item can be imported: it matches a row, or carries what a new row needs. */
  predicate Importable<I, B, M>(sec: Section<I, B, M>, t: Table<B, M>, category: nat, i: I) {
    sec.itemKey(i) == "" || sec.itemKey(i) in Lookup(sec, t, category, |t.rows|) || sec.create(i).Some?
  }

  lemma {:induction false} ImportedItemsAreImportable<I(!new), B(!new), M>(
    sec: Section<I, B, M>, category: nat, t: Table<B, M>, items: seq<I>, clock: nat -> Time)
    requires Import(sec, category, t, items, clock).Some?
    ensures forall k :: 0 <= k < |items| ==> Importable(sec, t, category, items[k])
  {
    if items != [] {
      var n := |items| - 1;
      ImportedItemsAreImportable(sec, category, t, items[..n], clock);
      var look := Lookup(sec, t, category, |t.rows|);
      ImportIsReplay(sec, category, look, t, items[..n], clock);
      forall k | 0 <= k < |items| ensures Importable(sec, t, category, items[k]) {
        if k < n {
          assert items[..n][k] == items[k];
        }
      }
    }
  }

  lemma PromptSettlesIff(t: Table<PromptBody, bool>, category: nat, i: PromptItem)
    requires PromptItemKey(i) != "" && Importable(PROMPTS, t, category, i)
    ensures Outcome(PROMPTS, t, category, i).Some?
    ensures PROMPTS.react(Outcome(PROMPTS, t, category, i).value, i).Keep? <==> CompletePrompt(i)
  {
    assert PROMPTS.itemKey(i) == PromptItemKey(i) && PROMPTS.create(i) == CreatePrompt(i);
    forall b ensures PROMPTS.react(b, i) == ReactPrompt(b, i) {}
  }

  lemma RuleSettlesIff(t: Table<RuleBody, bool>, category: nat, i: RuleItem)
    requires RuleItemKey(i) != "" && Importable(RULES, t, category, i)
    ensures Outcome(RULES, t, category, i).Some?
    ensures RULES.react(Outcome(RULES, t, category, i).value, i).Keep? <==> StableRule(t, category, i)
  {
    assert RULES.itemKey(i) == RuleItemKey(i) && RULES.create(i) == CreateRule(i);
    forall b ensures RULES.react(b, i) == ReactRule(b, i) {}
    var look := Lookup(RULES, t, category, |t.rows|);
    if RuleItemKey(i) in look {
      MergedRuleKeptIff(t.rows[look[RuleItemKey(i)]].body, i);
    }
  }

  /** A matched rule is kept by the item that changed it, or left it, exactly if nothing is inherited over. */
  lemma MergedRuleKeptIff(b: RuleBody, i: RuleItem)
    ensures var merged := MergeRule(b, Absent, i.conditionField, i.conditionOperator, i.conditionValue, i.actions);
            ReactRule(if ReactRule(b, i).Keep? then b else merged, i).Keep? <==>
              && i.conditionField.Present? && i.conditionOperator.Present?
              && (i.conditionValue.Present? || b.conditionValue.None?)
              && (i.actions.Present? || b.actions == map[])
  {
  }

  /** The two items ask for one body. */
  predicate SamePrompt(i: PromptItem, j: PromptItem) {
    && Get(i.responseType) == Get(j.responseType) && Get(i.required) == Get(j.required)
    && Get(i.displayOrder) == Get(j.displayOrder)
  }

  predicate SameRule(i: RuleItem, j: RuleItem) {
    && Get(i.conditionField) == Get(j.conditionField) && Get(i.conditionOperator) == Get(j.conditionOperator)
    && Get(i.conditionValue) == Get(j.conditionValue) && Inherit(i.actions, map[]) == Inherit(j.actions, map[])
  }

  /** The last prompt item with each label is complete, and the others with the label ask for the same body. */
  predicate PromptsSettle(items: seq<PromptItem>) {
    forall i | i in items ::
      PromptItemKey(i) != "" ==>
        match LastItem(PROMPTS, items, PromptItemKey(i))
        case None => false
        case Some(last) => CompletePrompt(last) && SamePrompt(i, last)
  }

  /** The last rule item with each label is stable, and the others with the label ask for the same body. */
  predicate RulesSettle(t: Table<RuleBody, bool>, category: nat, items: seq<RuleItem>) {
    forall i | i in items ::
      RuleItemKey(i) != "" ==>
        match LastItem(RULES, items, RuleItemKey(i))
        case None => false
        case Some(last) => StableRule(t, category, last) && SameRule(i, last)
  }

  lemma PromptKeptIff(b: PromptBody, i: PromptItem)
    ensures PROMPTS.itemKey(i) == PromptItemKey(i)
    ensures PROMPTS.react(b, i).Keep? <==>
              Get(i.responseType) == Some(b.responseType) && Get(i.required) == Some(b.required)
              && Get(i.displayOrder) == Some(b.displayOrder)
  {
    assert PROMPTS.react(b, i) == ReactPrompt(b, i);
  }

  lemma RuleKeptIff(b: RuleBody, i: RuleItem)
    ensures RULES.itemKey(i) == RuleItemKey(i)
    ensures RULES.react(b, i).Keep? <==>
              Get(i.conditionField) == Some(b.conditionField) && Get(i.conditionOperator) == Some(b.conditionOperator)
              && Get(i.conditionValue) == b.conditionValue && Inherit(i.actions, map[]) == b.actions
  {
    assert RULES.react(b, i) == ReactRule(b, i);
  }

  /** An accepted prompt section converges exactly when its labels settle, whatever repeats. */
  lemma {:induction false} PromptsConvergeIff(
    t: Table<PromptBody, bool>, category: nat, items: seq<PromptItem>, clock: nat -> Time)
    requires Import(PROMPTS, category, t, items, clock).Some?
    ensures Convergent(PROMPTS, t, category, items) <==> PromptsSettle(items)
  {
    ImportedItemsAreImportable(PROMPTS, category, t, items, clock);
    forall i ensures PROMPTS.itemKey(i) == PromptItemKey(i) {}
    if PromptsSettle(items) {
      forall i | i in items && PROMPTS.itemKey(i) != ""
        ensures LastItem(PROMPTS, items, PROMPTS.itemKey(i)).Some?
        ensures SameDemand(PROMPTS, i, LastItem(PROMPTS, items, PROMPTS.itemKey(i)).value)
        ensures Settles(PROMPTS, t, category, LastItem(PROMPTS, items, PROMPTS.itemKey(i)).value)
      {
        var last := LastItem(PROMPTS, items, PromptItemKey(i)).value;
        ImportableItem(PROMPTS, t, category, items, last);
        PromptSettlesIff(t, category, last);
        forall b ensures PROMPTS.react(b, i).Keep? <==> PROMPTS.react(b, last).Keep? {
          PromptKeptIff(b, i);
          PromptKeptIff(b, last);
        }
      }
      AgreeingItemsConverge(PROMPTS, t, category, items);
    }
    if Convergent(PROMPTS, t, category, items) {
      forall i | i in items && PromptItemKey(i) != ""
        ensures var last := LastItem(PROMPTS, items, PromptItemKey(i));
                last.Some? && CompletePrompt(last.value) && SamePrompt(i, last.value)
      {
        ConvergentItemsSettle(PROMPTS, t, category, items, i);
        var last := LastItem(PROMPTS, items, PromptItemKey(i)).value;
        ImportableItem(PROMPTS, t, category, items, last);
        PromptSettlesIff(t, category, last);
        PromptKeptIff(LastBody(PROMPTS, t, category, items, PromptItemKey(i)).value, i);
        PromptKeptIff(LastBody(PROMPTS, t, category, items, PromptItemKey(i)).value, last);
      }
    }
  }

  lemma ImportableItem<I, B, M>(sec: Section<I, B, M>, t: Table<B, M>, category: nat, items: seq<I>, item: I)
    requires forall k :: 0 <= k < |items| ==> Importable(sec, t, category, items[k])
    requires item in items
    ensures Importable(sec, t, category, item)
  {
  }

  /** An accepted rule section converges exactly when its labels settle, whatever repeats. */
  lemma {:induction false} RulesConvergeIff(
    t: Table<RuleBody, bool>, category: nat, items: seq<RuleItem>, clock: nat -> Time)
    requires Import(RULES, category, t, items, clock).Some?
    ensures Convergent(RULES, t, category, items) <==> RulesSettle(t, category, items)
  {
    ImportedItemsAreImportable(RULES, category, t, items, clock);
    forall i ensures RULES.itemKey(i) == RuleItemKey(i) {}
    if RulesSettle(t, category, items) {
      forall i | i in items && RULES.itemKey(i) != ""
        ensures LastItem(RULES, items, RULES.itemKey(i)).Some?
        ensures SameDemand(RULES, i, LastItem(RULES, items, RULES.itemKey(i)).value)
        ensures Settles(RULES, t, category, LastItem(RULES, items, RULES.itemKey(i)).value)
      {
        var last := LastItem(RULES, items, RuleItemKey(i)).value;
        ImportableItem(RULES, t, category, items, last);
        RuleSettlesIff(t, category, last);
        forall b ensures RULES.react(b, i).Keep? <==> RULES.react(b, last).Keep? {
          RuleKeptIff(b, i);
          RuleKeptIff(b, last);
        }
      }
      AgreeingItemsConverge(RULES, t, category, items);
    }
    if Convergent(RULES, t, category, items) {
      forall i | i in items && RuleItemKey(i) != ""
        ensures var last := LastItem(RULES, items, RuleItemKey(i));
                last.Some? && StableRule(t, category, last.value) && SameRule(i, last.value)
      {
        ConvergentItemsSettle(RULES, t, category, items, i);
        var last := LastItem(RULES, items, RuleItemKey(i)).value;
        ImportableItem(RULES, t, category, items, last);
        RuleSettlesIff(t, category, last);
        RuleKeptIff(LastBody(RULES, t, category, items, RuleItemKey(i)).value, i);
        RuleKeptIff(LastBody(RULES, t, category, items, RuleItemKey(i)).value, last);
      }
    }
  }

  /** Where no item repeats a label, the sections settle exactly if each labelled item is complete or stable. */
  lemma {:induction false} DistinctItemsSettleIff(t: Table<RuleBody, bool>, category: nat, payload: Payload)
    requires DistinctItems(PROMPTS, payload.prompts) && DistinctItems(RULES, payload.rules)
    ensures PromptsSettle(payload.prompts) <==>
              forall i :: i in payload.prompts && PromptItemKey(i) != "" ==> CompletePrompt(i)
    ensures RulesSettle(t, category, payload.rules) <==>
              forall i :: i in payload.rules && RuleItemKey(i) != "" ==> StableRule(t, category, i)
  {
    forall i | i in payload.prompts && PromptItemKey(i) != ""
      ensures LastItem(PROMPTS, payload.prompts, PromptItemKey(i)) == Some(i)
    {
      assert PROMPTS.itemKey(i) == PromptItemKey(i);
      OnlyItemIsLast(PROMPTS, payload.prompts, i);
    }
    forall i | i in payload.rules && RuleItemKey(i) != ""
      ensures LastItem(RULES, payload.rules, RuleItemKey(i)) == Some(i)
    {
      assert RULES.itemKey(i) == RuleItemKey(i);
      OnlyItemIsLast(RULES, payload.rules, i);
    }
  }

  lemma OnlyItemIsLast<I, B, M>(sec: Section<I, B, M>, items: seq<I>, item: I)
    requires DistinctItems(sec, items) && item in items && sec.itemKey(item) != ""
    ensures LastItem(sec, items, sec.itemKey(item)) == Some(item)
  {
    var k :| 0 <= k < |items| && items[k] == item;
    assert Mentions(sec, items, sec.itemKey(item));
    var last := LastItem(sec, items, sec.itemKey(item)).value;
    var j :| 0 <= j < |items| && items[j] == last;
  }

  // ------------------------------------------------------------------------------------------
  // Importing twice
  // ------------------------------------------------------------------------------------------

  /** The category the first import wrote to is the one the second import finds. */
  lemma SameTarget(s: Store, op: Op, again: Op)
    requires op.ImportBundle? && again.ImportBundle? && again.payload == op.payload && Refusal(s, op).None?
    ensures BySlug(Step(s, op), again.payload.slug) == Some(Target(s, op.payload))
    ensures Target(Step(s, op), again.payload) == Target(s, op.payload)
  {
    var edits := CategoryEdits(s, op);
    if edits != [] {
      OneEdit(s.categories, edits[0]);
      assert edits == [edits[0]];
    }
  }

  /** A section whose items never change a row settles at once. */
  lemma {:induction false} KeepingSectionSettles<I(!new), B(!new), M>(
    sec: Section<I, B, M>, category: nat, t: Table<B, M>, items: seq<I>, clock: nat -> Time, again: nat -> Time)
    requires KeepsKeys(sec) && forall b, i :: sec.react(b, i).Keep?
    requires Import(sec, category, t, items, clock).Some?
    ensures var u := Import(sec, category, t, items, clock).value.table;
            Import(sec, category, u, items, again) == Some(Start(u))
  {
    ImportedItemsHaveOutcomes(sec, category, t, items, clock);
    forall k | 0 <= k < |items| && sec.itemKey(items[k]) != ""
      ensures LastBody(sec, t, category, items, sec.itemKey(items[k])).Some?
    {
      assert Mentions(sec, items, sec.itemKey(items[k]));
      MentionedKeysHaveBodies(sec, t, category, items, sec.itemKey(items[k]));
    }
    ImportTwiceIff(sec, category, t, items, clock, again);
  }

  /** Components, attachments and photo slots settle at once, whatever repeats. */
  lemma {:induction false} PlainSectionsSettle(s: Store, op: Op, again: Op)
    requires op.ImportBundle? && again.ImportBundle? && again.payload == op.payload && Refusal(s, op).None?
    ensures ImportComponents(Step(s, op), again).Some? && ImportComponents(Step(s, op), again).value.added == []
    ensures ImportComponents(Step(s, op), again).value.table == Step(s, op).components
    ensures ImportAttachments(Step(s, op), again) == Some(Start(Step(s, op).attachments))
    ensures ImportSlots(Step(s, op), again) == Some(Start(Step(s, op).slots))
  {
    var cat, p := Target(s, op.payload), op.payload;
    SameTarget(s, op, again);
    AttachmentLaws();
    SlotLaws();
    ComponentsSettle(s.components, cat, p.components, op.clock, again.clock);
    KeepingSectionSettles(ATTACHMENTS, cat, s.attachments, p.attachments, op.clock, again.clock);
    KeepingSectionSettles(SLOTS, cat, s.slots, p.slots, op.clock, again.clock);
  }

  lemma {:induction false} PromptsSettleIff(s: Store, op: Op, again: Op)
    requires op.ImportBundle? && again.ImportBundle? && again.payload == op.payload && Refusal(s, op).None?
    ensures ImportPrompts(Step(s, op), again).Some?
    ensures var r, settles := ImportPrompts(Step(s, op), again).value, PromptsSettle(op.payload.prompts);
            && (settles ==> r == Start(Step(s, op).prompts))
            && (r.table == Step(s, op).prompts ==> settles)
  {
    var cat, items := Target(s, op.payload), op.payload.prompts;
    SameTarget(s, op, again);
    ImportStep(s, op);
    PromptLaws();
    ImportTwiceIff(PROMPTS, cat, s.prompts, items, op.clock, again.clock);
    SecondImportSucceeds(PROMPTS, cat, s.prompts, items, op.clock, again.clock);
    PromptsConvergeIff(s.prompts, cat, items, op.clock);
  }

  lemma {:induction false} RulesSettleIff(s: Store, op: Op, again: Op)
    requires op.ImportBundle? && again.ImportBundle? && again.payload == op.payload && Refusal(s, op).None?
    ensures ImportRules(Step(s, op), again).Some?
    ensures var r := ImportRules(Step(s, op), again).value;
            var settles := RulesSettle(s.rules, Target(s, op.payload), op.payload.rules);
            && (settles ==> r == Start(Step(s, op).rules))
            && (r.table == Step(s, op).rules ==> settles)
  {
    var cat, items := Target(s, op.payload), op.payload.rules;
    SameTarget(s, op, again);
    ImportStep(s, op);
    RuleLaws();
    ImportTwiceIff(RULES, cat, s.rules, items, op.ruleClock, again.ruleClock);
    SecondImportSucceeds(RULES, cat, s.rules, items, op.ruleClock, again.ruleClock);
    RulesConvergeIff(s.rules, cat, items, op.ruleClock);
  }

  /** The import reports that it created, added and superseded nothing. */
  predicate NothingReported(r: ImportReport) {
    && !r.created && r.supersededPrompts == [] && r.addedPrompts == [] && r.supersededRules == [] && r.addedRules == []
    && r.addedComponents == [] && r.addedAttachments == [] && r.addedSlots == []
  }

  /**
    Importing an accepted payload a second time is accepted, and equals importing it once, if and only if its prompt
    and rule labels settle; the second import then reports nothing. Labels may repeat, in the payload and in the store.
   */
  lemma {:induction false} ImportIsIdempotentIff(s: Store, op: Op, again: Op)
    requires op.ImportBundle? && again.ImportBundle? && again.payload == op.payload && Refusal(s, op).None?
    ensures Refusal(Step(s, op), again).None?
    ensures var settles := PromptsSettle(op.payload.prompts)
                           && RulesSettle(s.rules, Target(s, op.payload), op.payload.rules);
            && (Step(Step(s, op), again) == Step(s, op) <==> settles)
            && (settles ==> NothingReported(Report(Step(s, op), again)))
  {
    SameTarget(s, op, again);
    PlainSectionsSettle(s, op, again);
    PromptsSettleIff(s, op, again);
    RulesSettleIff(s, op, again);
    ImportIntoExisting(Step(s, op), again);
  }

  /** For distinct labels in the payload: exactly if each labelled prompt is complete and each labelled rule stable. */
  lemma {:induction false} DistinctImportIsIdempotentIff(s: Store, op: Op, again: Op)
    requires op.ImportBundle? && again.ImportBundle? && again.payload == op.payload && Refusal(s, op).None?
    requires DistinctItems(PROMPTS, op.payload.prompts) && DistinctItems(RULES, op.payload.rules)
    ensures Step(Step(s, op), again) == Step(s, op) <==>
              && (forall i :: i in op.payload.prompts && PromptItemKey(i) != "" ==> CompletePrompt(i))
              && (forall i :: i in op.payload.rules && RuleItemKey(i) != "" ==>
                    StableRule(s.rules, Target(s, op.payload), i))
  {
    ImportIsIdempotentIff(s, op, again);
    DistinctItemsSettleIff(s.rules, Target(s, op.payload), op.payload);
  }

  // ------------------------------------------------------------------------------------------
  // A category's own export
  // ------------------------------------------------------------------------------------------

  /** A section whose items never change a row is left alone by its own export. */
  lemma {:induction false} OwnSectionKeptIff<I(!new), B(!new), M(!new)>(
    sec: Section<I, B, M>, t: Table<B, M>, category: nat, clock: nat -> Time)
    requires DumpsFaithfully(sec) && NeverOverwrites(sec)
    ensures var r := Import(sec, category, t, Export(sec, t, category, |t.rows|), clock);
            && r.Some?
            && (SameKeySameContent(sec, t, category) ==> r == Some(Start(t)))
            && (r.value.table == t ==> SameKeySameContent(sec, t, category))
  {
    OwnExportKeepsIff(sec, t, category);
    var look, items := Lookup(sec, t, category, |t.rows|), Export(sec, t, category, |t.rows|);
    ExportSucceeds(sec, t, category, |t.rows|, look, t, category, clock);
    if SameKeySameContent(sec, t, category) {
      KeepingChangesNothing(sec, category, look, t, items, clock);
    } else if Import(sec, category, t, items, clock).value.table == t {
      ChangingNothingKeeps(sec, category, look, t, items, clock);
    }
  }

  /** An exported item is never refused, whatever has been imported before it. */
  lemma DumpIsAccepted<I(!new), B(!new), M(!new)>(
    sec: Section<I, B, M>, category: nat, look: map<string, nat>, p: Progress<B, M>, b: B, m: M, at: Time)
    requires DumpsFaithfully(sec)
    ensures ItemStep(sec, category, look, p, sec.dump(b, m), at).Some?
  {
    var item := sec.dump(b, m);
    assert sec.create(item) == Some((b, m));
    if sec.itemKey(item) in look && look[sec.itemKey(item)] < |p.table.rows| {
      assert !sec.react(p.table.rows[look[sec.itemKey(item)]].body, item).Fail?;
    }
  }

  /** An export of any category can be imported into any other. */
  lemma {:induction false} ExportSucceeds<I(!new), B(!new), M(!new)>(
    sec: Section<I, B, M>, t: Table<B, M>, category: nat, n: nat, look: map<string, nat>, to: Table<B, M>, target: nat,
    clock: nat -> Time)
    requires DumpsFaithfully(sec) && n <= |t.rows|
    ensures Fold(sec, target, look, Start(to), Export(sec, t, category, n), clock).Some?
  {
    if n > 0 {
      ExportSucceeds(sec, t, category, n - 1, look, to, target, clock);
      var row, before := t.rows[n - 1], Export(sec, t, category, n - 1);
      if row.owner == category && row.Current() {
        var p := Fold(sec, target, look, Start(to), before, clock).value;
        FoldAppend(sec, target, look, Start(to), before, sec.dump(row.body, row.side), clock);
        DumpIsAccepted(sec, target, look, p, row.body, row.side, clock(|before|));
        assert Export(sec, t, category, n) == before + [sec.dump(row.body, row.side)];
      } else {
        assert Export(sec, t, category, n) == before;
      }
    }
  }

  /** Rows with the same label, once normalised and unless blank, have the same body. */
  ghost predicate AgreeingLabels(s: Store, category: nat) {
    SameKeySameContent(PROMPTS, s.prompts, category) && SameKeySameContent(RULES, s.rules, category)
  }

  /** The sections of a live category's own export, imported back. */
  lemma {:induction false} OwnVersionedSections(s: Store, op: Op, category: nat)
    requires op.ImportBundle? && category < |s.categories.rows| && op.payload == ExportPayload(s, category)
    requires BySlug(s, op.payload.slug) == Some(category)
    ensures ImportPrompts(s, op).Some? && ImportRules(s, op).Some?
    ensures var p, r := ImportPrompts(s, op).value, ImportRules(s, op).value;
            && (AgreeingLabels(s, category) ==> p == Start(s.prompts) && r == Start(s.rules))
            && (p.table == s.prompts && r.table == s.rules ==> AgreeingLabels(s, category))
  {
    PromptLaws();
    RuleLaws();
    OwnSectionKeptIff(PROMPTS, s.prompts, category, op.clock);
    OwnSectionKeptIff(RULES, s.rules, category, op.ruleClock);
  }

  lemma {:induction false} OwnPlainSections(s: Store, op: Op, category: nat)
    requires op.ImportBundle? && category < |s.categories.rows| && op.payload == ExportPayload(s, category)
    requires BySlug(s, op.payload.slug) == Some(category)
    ensures ImportComponents(s, op).Some? && ImportComponents(s, op).value.added == []
    ensures ImportComponents(s, op).value.table == s.components
    ensures ImportAttachments(s, op) == Some(Start(s.attachments))
    ensures ImportSlots(s, op) == Some(Start(s.slots))
  {
    OwnComponentsKept(s.components, category, op.clock);
    OwnAttachmentsKept(s.attachments, category, op.clock);
    OwnSlotsKept(s.slots, category, op.clock);
  }

  /** On unique slugs, the slug of a live category finds that category. */
  lemma SlugFindsItsCategory(s: Store, category: nat)
    requires SlugsUnique(s.categories) && LiveCategory(s.categories, category)
    ensures BySlug(s, s.categories.rows[category].body.slug) == Some(category)
  {
  }

  /** An accepted import of a versioned section leaves the table as it is exactly if every item keeps its row. */
  lemma {:induction false} SectionUnchangedIff<I(!new), B(!new), M>(
    sec: Section<I, B, M>, category: nat, t: Table<B, M>, items: seq<I>, clock: nat -> Time)
    requires NeverOverwrites(sec) && Import(sec, category, t, items, clock).Some?
    ensures var r, look := Import(sec, category, t, items, clock), Lookup(sec, t, category, |t.rows|);
            && (r.value.table == t <==> AllKeep(sec, t, look, items))
            && (r.value.table == t ==> r == Some(Start(t)))
  {
    var look := Lookup(sec, t, category, |t.rows|);
    if AllKeep(sec, t, look, items) {
      KeepingChangesNothing(sec, category, look, t, items, clock);
    } else if Import(sec, category, t, items, clock).value.table == t {
      ChangingNothingKeeps(sec, category, look, t, items, clock);
    }
  }

  /** Every labelled item finds a row of the category and keeps it. */
  ghost predicate Kept<I, B, M>(sec: Section<I, B, M>, t: Table<B, M>, category: nat, items: seq<I>) {
    AllKeep(sec, t, Lookup(sec, t, category, |t.rows|), items)
  }

  /** The store has a live category for the slug, and it already has what the payload asks for. */
  ghost predicate AlreadyThere(s: Store, p: Payload) {
    && BySlug(s, p.slug).Some?
    && Kept(PROMPTS, s.prompts, Target(s, p), p.prompts) && Kept(RULES, s.rules, Target(s, p), p.rules)
    && Kept(ATTACHMENTS, s.attachments, Target(s, p), p.attachments) && Kept(SLOTS, s.slots, Target(s, p), p.slots)
    && ComponentsHeld(s.components, Target(s, p), p.components)
  }

  lemma {:induction false} VersionedSectionsKeptIff(s: Store, op: Op)
    requires op.ImportBundle? && ImportPrompts(s, op).Some? && ImportRules(s, op).Some?
    ensures var p, r := ImportPrompts(s, op).value, ImportRules(s, op).value;
            && (p.table == s.prompts <==> Kept(PROMPTS, s.prompts, Target(s, op.payload), op.payload.prompts))
            && (r.table == s.rules <==> Kept(RULES, s.rules, Target(s, op.payload), op.payload.rules))
            && (p.table == s.prompts ==> p == Start(s.prompts)) && (r.table == s.rules ==> r == Start(s.rules))
  {
    PromptLaws();
    RuleLaws();
    SectionUnchangedIff(PROMPTS, Target(s, op.payload), s.prompts, op.payload.prompts, op.clock);
    SectionUnchangedIff(RULES, Target(s, op.payload), s.rules, op.payload.rules, op.ruleClock);
  }

  lemma {:induction false} PlainSectionsKeptIff(s: Store, op: Op)
    requires op.ImportBundle? && ImportAttachments(s, op).Some? && ImportSlots(s, op).Some?
    ensures var a, l := ImportAttachments(s, op).value, ImportSlots(s, op).value;
            && (a.table == s.attachments <==>
                  Kept(ATTACHMENTS, s.attachments, Target(s, op.payload), op.payload.attachments))
            && (l.table == s.slots <==> Kept(SLOTS, s.slots, Target(s, op.payload), op.payload.slots))
            && (a.table == s.attachments ==> a == Start(s.attachments)) && (l.table == s.slots ==> l == Start(s.slots))
  {
    AttachmentLaws();
    SlotLaws();
    SectionUnchangedIff(ATTACHMENTS, Target(s, op.payload), s.attachments, op.payload.attachments, op.clock);
    SectionUnchangedIff(SLOTS, Target(s, op.payload), s.slots, op.payload.slots, op.clock);
  }

  /** An accepted import leaves the store as it is if and only if all of the payload is already there. */
  lemma {:induction false} ImportChangesNothingIff(s: Store, op: Op)
    requires op.ImportBundle? && Refusal(s, op).None?
    ensures Step(s, op) == s <==> AlreadyThere(s, op.payload)
  {
    VersionedSectionsKeptIff(s, op);
    PlainSectionsKeptIff(s, op);
    ComponentsUnchangedIff(s.components, Target(s, op.payload), op.payload.components, op.clock);
    TablesUnchangedIff(s, op);
  }

  lemma TablesUnchangedIff(s: Store, op: Op)
    requires op.ImportBundle? && Refusal(s, op).None?
    ensures Step(s, op) == s <==>
              && BySlug(s, op.payload.slug).Some?
              && ImportPrompts(s, op).value.table == s.prompts && ImportRules(s, op).value.table == s.rules
              && ImportAttachments(s, op).value.table == s.attachments && ImportSlots(s, op).value.table == s.slots
              && ImportComponents(s, op).value.table == s.components
  {
    ImportAccepted(s, op);
    if BySlug(s, op.payload.slug).None? {
      assert |WithTarget(s, op.payload, op.actor).rows| == |s.categories.rows| + 1;
    }
  }

  /** The export of any category, live or not, is accepted by any store. */
  lemma {:induction false} AnyExportIsAccepted(s: Store, category: nat, w: Store, op: Op)
    requires category < |s.categories.rows| && op.ImportBundle? && op.payload == ExportPayload(s, category)
    ensures Refusal(w, op).None?
  {
    var target := Target(w, op.payload);
    ComponentLaws();
    PromptLaws();
    AttachmentLaws();
    SlotLaws();
    RuleLaws();
    ExportSucceeds(COMPONENTS, s.components, category, |s.components.rows|,
                   Lookup(COMPONENTS, w.components, target, |w.components.rows|), w.components, target, op.clock);
    ExportSucceeds(PROMPTS, s.prompts, category, |s.prompts.rows|,
                   Lookup(PROMPTS, w.prompts, target, |w.prompts.rows|), w.prompts, target, op.clock);
    ExportSucceeds(ATTACHMENTS, s.attachments, category, |s.attachments.rows|,
                   Lookup(ATTACHMENTS, w.attachments, target, |w.attachments.rows|), w.attachments, target, op.clock);
    ExportSucceeds(SLOTS, s.slots, category, |s.slots.rows|,
                   Lookup(SLOTS, w.slots, target, |w.slots.rows|), w.slots, target, op.clock);
    ExportSucceeds(RULES, s.rules, category, |s.rules.rows|,
                   Lookup(RULES, w.rules, target, |w.rules.rows|), w.rules, target, op.ruleClock);
    SectionsAccepted(w, op);
  }

  /**
    Importing the export of any category of the store is accepted, and changes nothing if and only if the live category
    for its slug already has all of it. For a live category, that is if and only if prompts that share a label agree in
    body, and rules that share a label agree in body.
   */
  lemma {:induction false} OwnExportChangesNothingIff(s: Store, op: Op, category: nat)
    requires category < |s.categories.rows| && op.ImportBundle? && op.payload == ExportPayload(s, category)
    ensures Refusal(s, op).None?
    ensures Step(s, op) == s <==> AlreadyThere(s, op.payload)
    ensures SlugsUnique(s.categories) && LiveCategory(s.categories, category) ==>
              && (Step(s, op) == s <==> AgreeingLabels(s, category))
              && (AgreeingLabels(s, category) ==> NothingReported(Report(s, op)))
  {
    AnyExportIsAccepted(s, category, s, op);
    ImportChangesNothingIff(s, op);
    if SlugsUnique(s.categories) && LiveCategory(s.categories, category) {
      SlugFindsItsCategory(s, category);
      OwnVersionedSections(s, op, category);
      OwnPlainSections(s, op, category);
      ImportIntoExisting(s, op);
    }
  }

  /** An import into an existing category whose plain sections change nothing. */
  lemma ImportIntoExisting(s: Store, op: Op)
    requires op.ImportBundle? && BySlug(s, op.payload.slug).Some?
    requires ImportPrompts(s, op).Some? && ImportRules(s, op).Some?
    requires ImportComponents(s, op).Some? && ImportComponents(s, op).value.table == s.components
    requires ImportComponents(s, op).value.added == []
    requires ImportAttachments(s, op) == Some(Start(s.attachments)) && ImportSlots(s, op) == Some(Start(s.slots))
    ensures Refusal(s, op).None?
    ensures Step(s, op) == s <==>
              ImportPrompts(s, op).value.table == s.prompts && ImportRules(s, op).value.table == s.rules
    ensures ImportPrompts(s, op).value == Start(s.prompts) && ImportRules(s, op).value == Start(s.rules) ==>
              NothingReported(Report(s, op))
  {
    assert Refusal(s, op).None?;
    ImportAccepted(s, op);
  }

  lemma {:induction false} OwnAttachmentsKept(t: Table<AttachmentBody, bool>, category: nat, clock: nat -> Time)
    ensures Import(ATTACHMENTS, category, t, Export(ATTACHMENTS, t, category, |t.rows|), clock) == Some(Start(t))
  {
    AttachmentLaws();
    OwnSectionKeptIff(ATTACHMENTS, t, category, clock);
  }

  lemma {:induction false} OwnSlotsKept(t: Table<SlotBody, bool>, category: nat, clock: nat -> Time)
    ensures Import(SLOTS, category, t, Export(SLOTS, t, category, |t.rows|), clock) == Some(Start(t))
  {
    SlotLaws();
    OwnSectionKeptIff(SLOTS, t, category, clock);
  }

  // ------------------------------------------------------------------------------------------
  // Moving a bundle to another store
  // ------------------------------------------------------------------------------------------

  /** Child rows reference existing categories. */
  predicate ChildrenHaveCategories(s: Store) {
    && (forall i :: 0 <= i < |s.components.rows| ==> s.components.rows[i].owner < |s.categories.rows|)
    && (forall i :: 0 <= i < |s.prompts.rows| ==> s.prompts.rows[i].owner < |s.categories.rows|)
    && (forall i :: 0 <= i < |s.attachments.rows| ==> s.attachments.rows[i].owner < |s.categories.rows|)
    && (forall i :: 0 <= i < |s.slots.rows| ==> s.slots.rows[i].owner < |s.categories.rows|)
    && (forall i :: 0 <= i < |s.rules.rows| ==> s.rules.rows[i].owner < |s.categories.rows|)
  }

  /** No item of the payload has a blank label. */
  predicate AllLabelled(p: Payload) {
    && NoneBlank(COMPONENTS, p.components) && NoneBlank(PROMPTS, p.prompts) && NoneBlank(ATTACHMENTS, p.attachments)
    && NoneBlank(SLOTS, p.slots) && NoneBlank(RULES, p.rules)
  }

  /** A section of an export, imported into a category without rows, is exported again unless an item is blank. */
  lemma {:induction false} SectionMovesIff<I(!new), B(!new), M(!new)>(
    sec: Section<I, B, M>, from: Table<B, M>, category: nat, to: Table<B, M>, fresh_: nat, clock: nat -> Time)
    requires DumpsFaithfully(sec) && Unowned(to, fresh_)
    ensures var items := Export(sec, from, category, |from.rows|);
            var r := Import(sec, fresh_, to, items, clock);
            && r.Some?
            && (Export(sec, r.value.table, fresh_, |r.value.table.rows|) == items <==> NoneBlank(sec, items))
  {
    var items := Export(sec, from, category, |from.rows|);
    ExportedRows(sec, from, category, |from.rows|);
    forall k | 0 <= k < |items| ensures IsDump(sec, items[k]) {
      assert items[k] in items;
      assert IsDumpOfRow(sec, from, category, |from.rows|, items[k]);
    }
    ImportThenExport(sec, fresh_, to, items, clock);
    LabelledIsAllIff(sec, items);
  }

  /** The table a section's import leaves exports the items under the new category exactly if none is blank. */
  ghost predicate Moved<I, B, M>(sec: Section<I, B, M>, u: Table<B, M>, id: nat, items: seq<I>) {
    Export(sec, u, id, |u.rows|) == items <==> NoneBlank(sec, items)
  }

  lemma {:induction false} VersionedSectionsMove(s: Store, category: nat, w: Store, op: Op)
    requires category < |s.categories.rows| && ChildrenHaveCategories(w)
    requires op.ImportBundle? && op.payload == ExportPayload(s, category) && BySlug(w, op.payload.slug).None?
    ensures ImportPrompts(w, op).Some? && ImportRules(w, op).Some?
    ensures Moved(PROMPTS, ImportPrompts(w, op).value.table, |w.categories.rows|, op.payload.prompts)
    ensures Moved(RULES, ImportRules(w, op).value.table, |w.categories.rows|, op.payload.rules)
  {
    var id := |w.categories.rows|;
    PromptLaws();
    RuleLaws();
    SectionMovesIff(PROMPTS, s.prompts, category, w.prompts, id, op.clock);
    SectionMovesIff(RULES, s.rules, category, w.rules, id, op.ruleClock);
  }

  lemma {:induction false} PlainSectionsMove(s: Store, category: nat, w: Store, op: Op)
    requires category < |s.categories.rows| && ChildrenHaveCategories(w)
    requires op.ImportBundle? && op.payload == ExportPayload(s, category) && BySlug(w, op.payload.slug).None?
    ensures ImportComponents(w, op).Some? && ImportAttachments(w, op).Some? && ImportSlots(w, op).Some?
    ensures Moved(COMPONENTS, ImportComponents(w, op).value.table, |w.categories.rows|, op.payload.components)
    ensures Moved(ATTACHMENTS, ImportAttachments(w, op).value.table, |w.categories.rows|, op.payload.attachments)
    ensures Moved(SLOTS, ImportSlots(w, op).value.table, |w.categories.rows|, op.payload.slots)
  {
    var id := |w.categories.rows|;
    ComponentLaws();
    AttachmentLaws();
    SlotLaws();
    SectionMovesIff(COMPONENTS, s.components, category, w.components, id, op.clock);
    SectionMovesIff(ATTACHMENTS, s.attachments, category, w.attachments, id, op.clock);
    SectionMovesIff(SLOTS, s.slots, category, w.slots, id, op.clock);
  }

  /** An import that makes a category leaves its slug naming that category, with the payload's fields and version 1. */
  lemma NewCategoryFound(w: Store, op: Op)
    requires op.ImportBundle? && BySlug(w, op.payload.slug).None?
    ensures var u, id, p := WithTarget(w, op.payload, op.actor), |w.categories.rows|, op.payload;
            && |u.rows| == id + 1 && u.rows[id].version == 1
            && u.rows[id].body == CategoryBody(p.name, p.slug, p.status, p.displayOrder)
            && CurrentBySlug(u, p.slug, |u.rows|) == Some(id)
  {
  }

  /**
    Round trip: a category's export, imported into a store without a live category for the slug, is accepted and makes
    a new category; exporting that gives the same payload, item for item and apart from `version`, which restarts at
    1, if and only if no label was blank. Labels may repeat.
   */
  lemma {:induction false} RoundTripIff(s: Store, category: nat, w: Store, op: Op)
    requires category < |s.categories.rows| && ChildrenHaveCategories(w)
    requires op.ImportBundle? && op.payload == ExportPayload(s, category) && BySlug(w, op.payload.slug).None?
    ensures Refusal(w, op).None? && Report(w, op).created
    ensures var id := Report(w, op).category;
            && BySlug(Step(w, op), op.payload.slug) == Some(id)
            && (ExportPayload(Step(w, op), id) == op.payload.(version := 1) <==> AllLabelled(op.payload))
  {
    VersionedSectionsMove(s, category, w, op);
    PlainSectionsMove(s, category, w, op);
    SectionsAccepted(w, op);
    NewTarget(w, op.payload);
    ImportReported(w, op);
    NewCategoryMade(w, op);
    NewCategoryFound(w, op);
    MovedBundle(Step(w, op), |w.categories.rows|, op.payload);
  }

  lemma NewCategoryMade(w: Store, op: Op)
    requires op.ImportBundle? && BySlug(w, op.payload.slug).None? && Refusal(w, op).None?
    ensures Step(w, op).categories == WithTarget(w, op.payload, op.actor)
    ensures var t := Step(w, op);
            && t.components == ImportComponents(w, op).value.table && t.prompts == ImportPrompts(w, op).value.table
            && t.attachments == ImportAttachments(w, op).value.table && t.slots == ImportSlots(w, op).value.table
            && t.rules == ImportRules(w, op).value.table
  {
    ImportAccepted(w, op);
  }

  /** An import is accepted once its five sections are. */
  lemma SectionsAccepted(w: Store, op: Op)
    requires op.ImportBundle?
    requires ImportComponents(w, op).Some? && ImportPrompts(w, op).Some? && ImportAttachments(w, op).Some?
    requires ImportSlots(w, op).Some? && ImportRules(w, op).Some?
    ensures Refusal(w, op).None?
  {
  }

  lemma NewTarget(w: Store, payload: Payload)
    requires BySlug(w, payload.slug).None?
    ensures Target(w, payload) == |w.categories.rows|
  {
  }

  lemma ImportReported(w: Store, op: Op)
    requires op.ImportBundle? && Refusal(w, op).None?
    ensures Report(w, op).created == BySlug(w, op.payload.slug).None?
    ensures Report(w, op).category == Target(w, op.payload)
  {
  }

  /** A category made from a payload's fields and sections exports the payload exactly if no label is blank. */
  lemma MovedBundle(t: Store, id: nat, p: Payload)
    requires id < |t.categories.rows| && t.categories.rows[id].version == 1
    requires t.categories.rows[id].body == CategoryBody(p.name, p.slug, p.status, p.displayOrder)
    requires Moved(COMPONENTS, t.components, id, p.components) && Moved(PROMPTS, t.prompts, id, p.prompts)
    requires Moved(ATTACHMENTS, t.attachments, id, p.attachments) && Moved(SLOTS, t.slots, id, p.slots)
    requires Moved(RULES, t.rules, id, p.rules)
    ensures ExportPayload(t, id) == p.(version := 1) <==> AllLabelled(p)
  {
  }

  /** Editing a category moves none of its children: the successor exports none. */
  lemma {:induction false} SuccessorStartsEmpty(s: Store, op: Op)
    requires op.UpdateCategory? && Refusal(s, op).None? && ChildrenHaveCategories(s)
    ensures |Step(s, op).categories.rows| == |s.categories.rows| + 1
    ensures var p := ExportPayload(Step(s, op), |s.categories.rows|);
            && p.version == s.categories.rows[op.id].version + 1
            && p.components == [] && p.prompts == [] && p.attachments == [] && p.slots == [] && p.rules == []
  {
    OneEdit(s.categories, CategoryEdits(s, op)[0]);
    assert CategoryEdits(s, op) == [CategoryEdits(s, op)[0]];
    LookupOfUnowned(PROMPTS, s.prompts, |s.categories.rows|, |s.prompts.rows|);
    LookupOfUnowned(RULES, s.rules, |s.categories.rows|, |s.rules.rows|);
    LookupOfUnowned(COMPONENTS, s.components, |s.categories.rows|, |s.components.rows|);
    LookupOfUnowned(ATTACHMENTS, s.attachments, |s.categories.rows|, |s.attachments.rows|);
    LookupOfUnowned(SLOTS, s.slots, |s.categories.rows|, |s.slots.rows|);
  }
}
