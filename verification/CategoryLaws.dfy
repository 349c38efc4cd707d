/**
  What the category calls mean, said of the rows and of the fields that are given, missing or null: which labels match,
  what an edit writes, and what an import adds and reports.
 */
module CategoryLaws {
  import opened Common
  import opened Versioning
  import opened BundleImport
  import opened CategoryStore
  import opened CategoryTheorems
  import opened Labels
  import Text

  // ------------------------------------------------------------------------------------------
  // Fields
  // ------------------------------------------------------------------------------------------

  /** A given field is written; a missing or null one leaves the value it inherits. */
  predicate Writes<T(==)>(f: Field<T>, before: T, after: T) {
    match f
    case Present(v) => after == v
    case _ => after == before
  }

  /** A missing flag is true, a null one false. */
  predicate Flags(f: Field<bool>, b: bool) {
    match f
    case Absent => b
    case Null => !b
    case Present(v) => b == v
  }

  /** A missing place in the order is 0; a null one is no place. */
  predicate Places(f: Field<int>, n: int) {
    match f
    case Absent => n == 0
    case Null => false
    case Present(v) => n == v
  }

  /** A missing or null text is none. */
  predicate Texts(f: Field<string>, o: Option<string>) {
    match f
    case Present(v) => o == Some(v)
    case _ => o.None?
  }

  // ------------------------------------------------------------------------------------------
  // What an import makes of an unmatched item
  // ------------------------------------------------------------------------------------------

  predicate MakesComponent(i: ComponentItem, b: ComponentBody, active: bool) {
    && i.name == Present(b.name) && i.weight == Present(b.weight) && Places(i.displayOrder, b.displayOrder)
    && Flags(i.active, active)
  }

  predicate MakesPrompt(i: PromptItem, b: PromptBody, active: bool) {
    && i.title == Present(b.title) && i.responseType == Present(b.responseType) && Flags(i.required, b.required)
    && Places(i.displayOrder, b.displayOrder) && Flags(i.active, active)
  }

  predicate MakesAttachment(i: AttachmentItem, b: AttachmentBody, active: bool) {
    && i.title == Present(b.title) && Texts(i.description, b.description) && Places(i.displayOrder, b.displayOrder)
    && Flags(i.active, active)
  }

  predicate MakesSlot(i: SlotItem, b: SlotBody, active: bool) {
    && i.title == Present(b.title) && Texts(i.helperText, b.helperText) && Flags(i.required, b.required)
    && Places(i.displayOrder, b.displayOrder) && Flags(i.active, active)
  }

  predicate MakesRule(i: RuleItem, b: RuleBody, active: bool) {
    && i.title == Present(b.title) && i.conditionField == Present(b.conditionField)
    && i.conditionOperator == Present(b.conditionOperator) && Texts(i.conditionValue, b.conditionValue)
    && (if i.actions.Present? then b.actions == i.actions.value else b.actions == map[]) && Flags(i.active, active)
  }

  /** An unmatched item becomes the row its fields and their defaults spell out, or raises if there is none. */
  lemma {:induction false} CreatesIff()
    ensures forall i, b, m :: COMPONENTS.create(i) == Some((b, m)) <==> MakesComponent(i, b, m)
    ensures forall i, b, m :: PROMPTS.create(i) == Some((b, m)) <==> MakesPrompt(i, b, m)
    ensures forall i, b, m :: ATTACHMENTS.create(i) == Some((b, m)) <==> MakesAttachment(i, b, m)
    ensures forall i, b, m :: SLOTS.create(i) == Some((b, m)) <==> MakesSlot(i, b, m)
    ensures forall i, b, m :: RULES.create(i) == Some((b, m)) <==> MakesRule(i, b, m)
  {
    forall i: ComponentItem ensures COMPONENTS.create(i) == CreateComponent(i) {}
    forall i: PromptItem ensures PROMPTS.create(i) == CreatePrompt(i) {}
    forall i: AttachmentItem ensures ATTACHMENTS.create(i) == CreateAttachment(i) {}
    forall i: SlotItem ensures SLOTS.create(i) == CreateSlot(i) {}
    forall i: RuleItem ensures RULES.create(i) == CreateRule(i) {}
  }

  // ------------------------------------------------------------------------------------------
  // Matching
  // ------------------------------------------------------------------------------------------

  /** The item has a label that is not blank, and it is the row's, up to case and white space at the ends. */
  ghost predicate Names(given: Field<string>, title: string) {
    given.Present? && !AllWhite(given.value) && SameLabel(given.value, title)
  }

  lemma NamesIff(given: Field<string>, title: string)
    ensures LabelKey(given) != "" && LabelKey(given) == Text.Normalize(title) <==> Names(given, title)
  {
    if given.Present? {
      NormalizeIff(given.value, title);
      BlankIff(given.value);
    }
  }

  /** In each section, an item and a row have one key, and not the blank one, exactly if the item names the row. */
  lemma {:induction false} SectionsMatchOnLabels()
    ensures forall i, b :: COMPONENTS.itemKey(i) != "" && COMPONENTS.itemKey(i) == COMPONENTS.rowKey(b) <==>
              Names(i.name, b.name)
    ensures forall i, b :: PROMPTS.itemKey(i) != "" && PROMPTS.itemKey(i) == PROMPTS.rowKey(b) <==>
              Names(i.title, b.title)
    ensures forall i, b :: ATTACHMENTS.itemKey(i) != "" && ATTACHMENTS.itemKey(i) == ATTACHMENTS.rowKey(b) <==>
              Names(i.title, b.title)
    ensures forall i, b :: SLOTS.itemKey(i) != "" && SLOTS.itemKey(i) == SLOTS.rowKey(b) <==> Names(i.title, b.title)
    ensures forall i, b :: RULES.itemKey(i) != "" && RULES.itemKey(i) == RULES.rowKey(b) <==> Names(i.title, b.title)
  {
    forall i, b
      ensures COMPONENTS.itemKey(i) != "" && COMPONENTS.itemKey(i) == COMPONENTS.rowKey(b) <==> Names(i.name, b.name)
    {
      NamesIff(i.name, b.name);
      assert COMPONENTS.itemKey(i) == ComponentItemKey(i) && COMPONENTS.rowKey(b) == ComponentRowKey(b);
    }
    forall i, b
      ensures PROMPTS.itemKey(i) != "" && PROMPTS.itemKey(i) == PROMPTS.rowKey(b) <==> Names(i.title, b.title)
    {
      NamesIff(i.title, b.title);
      assert PROMPTS.itemKey(i) == PromptItemKey(i) && PROMPTS.rowKey(b) == PromptRowKey(b);
    }
    forall i, b
      ensures ATTACHMENTS.itemKey(i) != "" && ATTACHMENTS.itemKey(i) == ATTACHMENTS.rowKey(b) <==>
                Names(i.title, b.title)
    {
      NamesIff(i.title, b.title);
      assert ATTACHMENTS.itemKey(i) == AttachmentItemKey(i) && ATTACHMENTS.rowKey(b) == AttachmentRowKey(b);
    }
    forall i, b ensures SLOTS.itemKey(i) != "" && SLOTS.itemKey(i) == SLOTS.rowKey(b) <==> Names(i.title, b.title) {
      NamesIff(i.title, b.title);
      assert SLOTS.itemKey(i) == SlotItemKey(i) && SLOTS.rowKey(b) == SlotRowKey(b);
    }
    forall i, b ensures RULES.itemKey(i) != "" && RULES.itemKey(i) == RULES.rowKey(b) <==> Names(i.title, b.title) {
      NamesIff(i.title, b.title);
      assert RULES.itemKey(i) == RuleItemKey(i) && RULES.rowKey(b) == RuleRowKey(b);
    }
  }

  /** Row `p` is a current prompt of the category with the label, up to case and white space at the ends. */
  ghost predicate PromptLabelled(t: Table<PromptBody, bool>, category: nat, title: string, p: nat) {
    && p < |t.rows| && t.rows[p].owner == category && t.rows[p].replacedAt.None?
    && SameLabel(t.rows[p].body.title, title)
  }

  /** Row `p` is a current rule of the category with the label. */
  ghost predicate RuleLabelled(t: Table<RuleBody, bool>, category: nat, title: string, p: nat) {
    && p < |t.rows| && t.rows[p].owner == category && t.rows[p].replacedAt.None?
    && SameLabel(t.rows[p].body.title, title)
  }

  lemma PromptHoldsIff(t: Table<PromptBody, bool>, category: nat, title: string, p: nat)
    ensures Holds(PROMPTS, t, category, Text.Normalize(title), p) <==> PromptLabelled(t, category, title, p)
  {
    if p < |t.rows| {
      NormalizeIff(t.rows[p].body.title, title);
      assert PROMPTS.rowKey(t.rows[p].body) == PromptRowKey(t.rows[p].body);
    }
  }

  lemma RuleHoldsIff(t: Table<RuleBody, bool>, category: nat, title: string, p: nat)
    ensures Holds(RULES, t, category, Text.Normalize(title), p) <==> RuleLabelled(t, category, title, p)
  {
    if p < |t.rows| {
      NormalizeIff(t.rows[p].body.title, title);
      assert RULES.rowKey(t.rows[p].body) == RuleRowKey(t.rows[p].body);
    }
  }

  /** The item asks for the successor's body, given the body it replaces. */
  predicate AsksForPrompt(i: PromptItem, before: PromptBody, after: PromptBody) {
    && after.title == before.title && Writes(i.responseType, before.responseType, after.responseType)
    && Writes(i.required, before.required, after.required)
    && Writes(i.displayOrder, before.displayOrder, after.displayOrder)
  }

  predicate AsksForRule(i: RuleItem, before: RuleBody, after: RuleBody) {
    && after.title == before.title && Writes(i.conditionField, before.conditionField, after.conditionField)
    && Writes(i.conditionOperator, before.conditionOperator, after.conditionOperator)
    && (if i.conditionValue.Present? then after.conditionValue == Some(i.conditionValue.value)
        else after.conditionValue == before.conditionValue)
    && Writes(i.actions, before.actions, after.actions)
  }

  /** What row `j` of `u` has to do with the item: its label, and where the row comes from. */
  ghost predicate PromptComesFrom(
    t: Table<PromptBody, bool>, u: Table<PromptBody, bool>, category: nat, j: nat, i: PromptItem)
    requires j < |u.rows| == |u.prior|
  {
    && i.title.Present? && !AllWhite(i.title.value) && SameLabel(i.title.value, u.rows[j].body.title)
    && u.rows[j].owner == category
    && (match u.prior[j]
        case Some(p) =>
          && LastPromptLabelled(t, category, i.title.value, p) && u.rows[j].version == t.rows[p].version + 1
          && AsksForPrompt(i, t.rows[p].body, u.rows[j].body)
        case None =>
          && NoPromptLabelled(t, category, i.title.value) && u.rows[j].version == 1
          && exists active :: MakesPrompt(i, u.rows[j].body, active))
  }

  /** Row `p` is the last current prompt of the category with the label. */
  ghost predicate LastPromptLabelled(t: Table<PromptBody, bool>, category: nat, title: string, p: nat) {
    && PromptLabelled(t, category, title, p)
    && forall q: nat :: PromptLabelled(t, category, title, q) ==> q <= p
  }

  ghost predicate NoPromptLabelled(t: Table<PromptBody, bool>, category: nat, title: string) {
    forall q: nat :: !PromptLabelled(t, category, title, q)
  }

  lemma PromptLookupIff(t: Table<PromptBody, bool>, category: nat, title: string)
    ensures var look, key := Lookup(PROMPTS, t, category, |t.rows|), Text.Normalize(title);
            && (key in look ==> LastPromptLabelled(t, category, title, look[key]))
            && (key !in look ==> NoPromptLabelled(t, category, title))
  {
    var look, key := Lookup(PROMPTS, t, category, |t.rows|), Text.Normalize(title);
    forall q: nat ensures Holds(PROMPTS, t, category, key, q) <==> PromptLabelled(t, category, title, q) {
      PromptHoldsIff(t, category, title, q);
    }
  }

  lemma PromptAsked(b: PromptBody, i: PromptItem, after: PromptBody)
    requires PROMPTS.react(b, i) == Replace(after)
    ensures AsksForPrompt(i, b, after)
  {
    assert PROMPTS.react(b, i) == ReactPrompt(b, i);
  }

  lemma PromptMade(i: PromptItem, b: PromptBody)
    requires PROMPTS.create(i).Some? && PROMPTS.create(i).value.0 == b
    ensures exists active :: MakesPrompt(i, b, active)
  {
    assert PROMPTS.create(i) == CreatePrompt(i);
    assert MakesPrompt(i, b, PROMPTS.create(i).value.1);
  }

  lemma ExplainedPrompt(t: Table<PromptBody, bool>, u: Table<PromptBody, bool>, category: nat, j: nat, i: PromptItem)
    requires j < |u.rows| == |u.prior| && Explains(PROMPTS, category, t, u, j, i)
    ensures PromptComesFrom(t, u, category, j, i)
  {
    assert PROMPTS.itemKey(i) == PromptItemKey(i);
    assert PROMPTS.rowKey(u.rows[j].body) == PromptRowKey(u.rows[j].body);
    NormalizeIff(i.title.value, u.rows[j].body.title);
    BlankIff(i.title.value);
    PromptLookupIff(t, category, i.title.value);
    if u.prior[j].Some? {
      PromptAsked(t.rows[u.prior[j].value].body, i, u.rows[j].body);
    } else {
      PromptMade(i, u.rows[j].body);
    }
  }

  /**
    Every prompt that an accepted import adds comes from an item with its label. If the target had a current prompt
    with that label, up to case and white space, the new row is the next version of the last of those, with what the
    item gives and the rest inherited; otherwise it opens a chain at version 1, with what the item gives and the
    defaults.
   */
  lemma {:induction false} AddedPrompts(s: Store, op: Op, j: nat) returns (i: PromptItem)
    requires op.ImportBundle? && Refusal(s, op).None? && |s.prompts.rows| == |s.prompts.prior|
    requires |s.prompts.rows| <= j < |Step(s, op).prompts.rows|
    ensures i in op.payload.prompts && j < |Step(s, op).prompts.rows| == |Step(s, op).prompts.prior|
    ensures PromptComesFrom(s.prompts, Step(s, op).prompts, Target(s, op.payload), j, i)
  {
    var category := Target(s, op.payload);
    PromptLaws();
    ImportStep(s, op);
    AddedRowsAreExplained(PROMPTS, category, s.prompts, op.payload.prompts, op.clock);
    var u := Step(s, op).prompts;
    assert Explained(PROMPTS, category, s.prompts, u, op.payload.prompts, j);
    i :| i in op.payload.prompts && Explains(PROMPTS, category, s.prompts, u, j, i);
    ExplainedPrompt(s.prompts, u, category, j, i);
  }

  /** What row `j` of `u` has to do with the item: its label, and where the row comes from. */
  ghost predicate RuleComesFrom(
    t: Table<RuleBody, bool>, u: Table<RuleBody, bool>, category: nat, j: nat, i: RuleItem)
    requires j < |u.rows| == |u.prior|
  {
    && i.title.Present? && !AllWhite(i.title.value) && SameLabel(i.title.value, u.rows[j].body.title)
    && u.rows[j].owner == category
    && (match u.prior[j]
        case Some(p) =>
          && LastRuleLabelled(t, category, i.title.value, p) && u.rows[j].version == t.rows[p].version + 1
          && AsksForRule(i, t.rows[p].body, u.rows[j].body)
        case None =>
          && NoRuleLabelled(t, category, i.title.value) && u.rows[j].version == 1
          && exists active :: MakesRule(i, u.rows[j].body, active))
  }

  /** Row `p` is the last current rule of the category with the label. */
  ghost predicate LastRuleLabelled(t: Table<RuleBody, bool>, category: nat, title: string, p: nat) {
    && RuleLabelled(t, category, title, p)
    && forall q: nat :: RuleLabelled(t, category, title, q) ==> q <= p
  }

  ghost predicate NoRuleLabelled(t: Table<RuleBody, bool>, category: nat, title: string) {
    forall q: nat :: !RuleLabelled(t, category, title, q)
  }

  lemma RuleLookupIff(t: Table<RuleBody, bool>, category: nat, title: string)
    ensures var look, key := Lookup(RULES, t, category, |t.rows|), Text.Normalize(title);
            && (key in look ==> LastRuleLabelled(t, category, title, look[key]))
            && (key !in look ==> NoRuleLabelled(t, category, title))
  {
    var look, key := Lookup(RULES, t, category, |t.rows|), Text.Normalize(title);
    forall q: nat ensures Holds(RULES, t, category, key, q) <==> RuleLabelled(t, category, title, q) {
      RuleHoldsIff(t, category, title, q);
    }
  }

  lemma RuleAsked(b: RuleBody, i: RuleItem, after: RuleBody)
    requires RULES.react(b, i) == Replace(after)
    ensures AsksForRule(i, b, after)
  {
    assert RULES.react(b, i) == ReactRule(b, i);
  }

  lemma RuleMade(i: RuleItem, b: RuleBody)
    requires RULES.create(i).Some? && RULES.create(i).value.0 == b
    ensures exists active :: MakesRule(i, b, active)
  {
    assert RULES.create(i) == CreateRule(i);
    assert MakesRule(i, b, RULES.create(i).value.1);
  }

  lemma ExplainedRule(t: Table<RuleBody, bool>, u: Table<RuleBody, bool>, category: nat, j: nat, i: RuleItem)
    requires j < |u.rows| == |u.prior| && Explains(RULES, category, t, u, j, i)
    ensures RuleComesFrom(t, u, category, j, i)
  {
    assert RULES.itemKey(i) == RuleItemKey(i);
    assert RULES.rowKey(u.rows[j].body) == RuleRowKey(u.rows[j].body);
    NormalizeIff(i.title.value, u.rows[j].body.title);
    BlankIff(i.title.value);
    RuleLookupIff(t, category, i.title.value);
    if u.prior[j].Some? {
      RuleAsked(t.rows[u.prior[j].value].body, i, u.rows[j].body);
    } else {
      RuleMade(i, u.rows[j].body);
    }
  }

  /** The same for rules. */
  lemma {:induction false} AddedRules(s: Store, op: Op, j: nat) returns (i: RuleItem)
    requires op.ImportBundle? && Refusal(s, op).None? && |s.rules.rows| == |s.rules.prior|
    requires |s.rules.rows| <= j < |Step(s, op).rules.rows|
    ensures i in op.payload.rules && j < |Step(s, op).rules.rows| == |Step(s, op).rules.prior|
    ensures RuleComesFrom(s.rules, Step(s, op).rules, Target(s, op.payload), j, i)
  {
    var category := Target(s, op.payload);
    RuleLaws();
    ImportStep(s, op);
    AddedRowsAreExplained(RULES, category, s.rules, op.payload.rules, op.ruleClock);
    var u := Step(s, op).rules;
    assert Explained(RULES, category, s.rules, u, op.payload.rules, j);
    i :| i in op.payload.rules && Explains(RULES, category, s.rules, u, j, i);
    ExplainedRule(s.rules, u, category, j, i);
  }

  /** A label that matches a current prompt opens no chain: whatever the import adds for it is a successor. */
  lemma {:induction false} MatchedLabelsAddNoChain(s: Store, op: Op, p: nat, title: string)
    requires op.ImportBundle? && Refusal(s, op).None? && |s.prompts.rows| == |s.prompts.prior|
    requires PromptLabelled(s.prompts, Target(s, op.payload), title, p)
    ensures var u, category := Step(s, op).prompts, Target(s, op.payload);
            forall j: nat :: |s.prompts.rows| <= j < |u.rows| && SameLabel(u.rows[j].body.title, title) ==>
              j < |u.prior| && u.prior[j].Some? && PromptLabelled(s.prompts, category, title, u.prior[j].value)
  {
    var u, cat := Step(s, op).prompts, Target(s, op.payload);
    forall j: nat | |s.prompts.rows| <= j < |u.rows| && SameLabel(u.rows[j].body.title, title)
      ensures j < |u.prior| && u.prior[j].Some? && PromptLabelled(s.prompts, cat, title, u.prior[j].value)
    {
      var i := AddedPrompts(s, op, j);
      SameLabelJoins(i.title.value, u.rows[j].body.title, title);
      SameLabelJoins(s.prompts.rows[p].body.title, title, i.title.value);
      assert u.prior[j].None? ==> PromptLabelled(s.prompts, cat, i.title.value, p);
      SameLabelJoins(s.prompts.rows[u.prior[j].value].body.title, i.title.value, title);
    }
  }

  lemma SameLabelJoins(a: string, b: string, c: string)
    requires SameLabel(a, b)
    ensures SameLabel(b, a)
    ensures SameLabel(b, c) ==> SameLabel(a, c) && SameLabel(c, a)
    ensures SameLabel(c, b) ==> SameLabel(a, c) && SameLabel(c, a)
  {
    NormalizeIff(a, b);
    NormalizeIff(b, a);
    NormalizeIff(b, c);
    NormalizeIff(c, b);
    NormalizeIff(a, c);
    NormalizeIff(c, a);
  }

  // ------------------------------------------------------------------------------------------
  // Reports
  // ------------------------------------------------------------------------------------------

  /** The ids are those of the rows that `u` has beyond `t`, in order. */
  predicate ListsNewRows<B, M>(t: Table<B, M>, u: Table<B, M>, ids: seq<nat>) {
    && |t.rows| <= |u.rows| && |ids| == |u.rows| - |t.rows|
    && (forall k :: 0 <= k < |ids| ==> ids[k] == |t.rows| + k)
  }

  /** The ids are those of the rows that are current in `t` and replaced in `u`. */
  ghost predicate ListsReplaced<B, M>(t: Table<B, M>, u: Table<B, M>, ids: seq<nat>) {
    && |t.rows| <= |u.rows|
    && forall id: nat :: id in ids <==> id < |t.rows| && t.rows[id].replacedAt.None? && u.rows[id].replacedAt.Some?
  }

  /** An import reports what it did: the prompts and rules it added, and those it superseded. */
  lemma {:induction false} ImportReportsWhatItDid(s: Store, op: Op)
    requires op.ImportBundle? && Refusal(s, op).None?
    ensures var r, t := Report(s, op), Step(s, op);
            && ListsNewRows(s.prompts, t.prompts, r.addedPrompts) && ListsNewRows(s.rules, t.rules, r.addedRules)
            && ListsReplaced(s.prompts, t.prompts, r.supersededPrompts)
            && ListsReplaced(s.rules, t.rules, r.supersededRules)
  {
    ImportStep(s, op);
    ReportsAreExact(PROMPTS, Target(s, op.payload), s.prompts, op.payload.prompts, op.clock);
    ReportsAreExact(RULES, Target(s, op.payload), s.rules, op.payload.rules, op.ruleClock);
  }

  /** The same for components, attachments and photo slots. */
  lemma {:induction false} ImportReportsPlainRows(s: Store, op: Op)
    requires op.ImportBundle? && Refusal(s, op).None?
    ensures ListsNewRows(s.components, Step(s, op).components, Report(s, op).addedComponents)
    ensures ListsNewRows(s.attachments, Step(s, op).attachments, Report(s, op).addedAttachments)
    ensures ListsNewRows(s.slots, Step(s, op).slots, Report(s, op).addedSlots)
  {
    ReportsAreExact(COMPONENTS, Target(s, op.payload), s.components, op.payload.components, op.clock);
    ReportsAreExact(ATTACHMENTS, Target(s, op.payload), s.attachments, op.payload.attachments, op.clock);
    ReportsAreExact(SLOTS, Target(s, op.payload), s.slots, op.payload.slots, op.clock);
  }

  /** An import writes to the category that has the slug, or makes one with the given fields, and reports which. */
  lemma {:induction false} ImportFindsOrMakes(s: Store, op: Op)
    requires op.ImportBundle? && Refusal(s, op).None?
    ensures var r, t, p := Report(s, op), Step(s, op).categories.rows, op.payload;
            && r.category < |t| && t[r.category].replacedAt.None? && t[r.category].side.None?
            && t[r.category].body.slug == p.slug
            && (if r.created then
                  && r.category == |s.categories.rows|
                  && t == s.categories.rows + [Row(op.actor, CategoryBody(p.name, p.slug, p.status, p.displayOrder),
                                                   Option.None, 1, Option.None)]
                else t == s.categories.rows)
    ensures Report(s, op).created <==>
              forall i: nat :: LiveCategory(s.categories, i) ==> s.categories.rows[i].body.slug != op.payload.slug
  {
    var edits := CategoryEdits(s, op);
    if edits != [] {
      OneEdit(s.categories, edits[0]);
      assert edits == [edits[0]];
    }
  }

  // ------------------------------------------------------------------------------------------
  // Single edits
  // ------------------------------------------------------------------------------------------

  /** The table has one more row, which replaces row `id` from `at` on; the others are as they were. */
  predicate Succeeded<B(==), M(==)>(t: Table<B, M>, u: Table<B, M>, id: nat, at: Time) {
    && id < |t.rows| && |u.rows| == |t.rows| + 1
    && (forall k :: 0 <= k < |t.rows| && k != id ==> u.rows[k] == t.rows[k])
    && u.rows[id] == t.rows[id].(replacedAt := Some(at))
    && u.rows[|t.rows|].owner == t.rows[id].owner && u.rows[|t.rows|].version == t.rows[id].version + 1
    && u.rows[|t.rows|].replacedAt.None?
  }

  /** A category is created active, at version 1, if no live category has its slug. */
  lemma {:induction false} CreateCategoryWrites(s: Store, op: Op)
    requires op.CreateCategory? && SlugsUnique(s.categories)
    ensures Refusal(s, op).None? <==>
              forall i: nat :: LiveCategory(s.categories, i) ==> s.categories.rows[i].body.slug != op.slug
    ensures Refusal(s, op).None? ==>
              Step(s, op).categories.rows ==
              s.categories.rows
              + [Row(op.actor, CategoryBody(op.name, op.slug, "active", op.displayOrder), Option.None, 1, Option.None)]
  {
    if Refusal(s, op).None? {
      OneEdit(s.categories, CategoryEdits(s, op)[0]);
      assert CategoryEdits(s, op) == [CategoryEdits(s, op)[0]];
    }
  }

  /** An edit of a category supersedes it: given fields are written, missing and null ones inherited. */
  lemma {:induction false} UpdateCategoryWrites(s: Store, op: Op)
    requires op.UpdateCategory? && Refusal(s, op).None?
    ensures LiveCategory(s.categories, op.id) && Succeeded(s.categories, Step(s, op).categories, op.id, op.at)
    ensures var before, after, p :=
              s.categories.rows[op.id].body, Step(s, op).categories.rows[|s.categories.rows|].body, op.categoryPatch;
            && Writes(p.name, before.name, after.name) && Writes(p.slug, before.slug, after.slug)
            && Writes(p.status, before.status, after.status)
            && Writes(p.displayOrder, before.displayOrder, after.displayOrder)
    ensures Step(s, op).categories.rows[|s.categories.rows|].side == s.categories.rows[op.id].side
  {
    OneEdit(s.categories, CategoryEdits(s, op)[0]);
    assert CategoryEdits(s, op) == [CategoryEdits(s, op)[0]];
  }

  /** Deactivating a category supersedes it with one that differs in its status, `inactive`; once is enough. */
  lemma {:induction false} DeactivateCategoryWrites(s: Store, op: Op)
    requires op.DeactivateCategory? && Refusal(s, op).None?
    ensures op.id < |s.categories.rows|
    ensures s.categories.rows[op.id].body.status == "inactive" ==> Step(s, op).categories == s.categories
    ensures s.categories.rows[op.id].body.status != "inactive" ==>
              && Succeeded(s.categories, Step(s, op).categories, op.id, op.at)
              && Step(s, op).categories.rows[|s.categories.rows|].body
                 == s.categories.rows[op.id].body.(status := "inactive")
  {
    if CategoryEdits(s, op) != [] {
      OneEdit(s.categories, CategoryEdits(s, op)[0]);
      assert CategoryEdits(s, op) == [CategoryEdits(s, op)[0]];
    }
  }

  /** A category that no record uses can be deleted; its slug is then free, and it cannot be edited any more. */
  lemma {:induction false} SoftDeleteFreesTheSlug(s: Store, op: Op, create: Op, edit: Op)
    requires op.SoftDeleteCategory? && SlugsUnique(s.categories) && LiveCategory(s.categories, op.id)
    requires create.CreateCategory? && create.slug == s.categories.rows[op.id].body.slug
    requires edit.UpdateCategory? && edit.id == op.id
    ensures Refusal(s, op).None? <==> op.recordsInUse == 0
    ensures Refusal(s, op).None? ==>
              && Step(s, op).categories.rows
                 == s.categories.rows[op.id := s.categories.rows[op.id].(side := Some(op.at))]
              && Refusal(Step(s, op), create).None? && Refusal(Step(s, op), edit) == Some(Conflict)
    ensures Refusal(s, op).Some? ==> Refusal(s, create) == Some(Conflict)
  {
    if Refusal(s, op).None? {
      OneEdit(s.categories, CategoryEdits(s, op)[0]);
      assert CategoryEdits(s, op) == [CategoryEdits(s, op)[0]];
      StepKeepsSlugsUnique(s, op);
      CreateCategoryWrites(Step(s, op), create);
    } else {
      CreateCategoryWrites(s, create);
    }
  }

  /** An edit that gives only `active` writes it in place. */
  lemma ActiveWrites<B>(t: Table<B, bool>, id: nat, active: Field<bool>, body: B, at: Time)
    requires id < |t.rows| && active.Present?
    ensures Replay(t, VersionedUpdate(t, id, true, active, body, at)).rows
            == t.rows[id := t.rows[id].(side := active.value)]
  {
    OneEdit(t, SetSide(id, active.value));
  }

  /** Any other edit supersedes; the successor's `active` is given or inherited. */
  lemma SupersedeWrites<B>(t: Table<B, bool>, id: nat, active: Field<bool>, body: B, at: Time)
    requires id < |t.rows|
    ensures var u := Replay(t, VersionedUpdate(t, id, false, active, body, at));
            && Succeeded(t, u, id, at) && u.rows[|t.rows|].body == body
            && Writes(active, t.rows[id].side, u.rows[|t.rows|].side)
  {
    if active.Present? {
      TwoEdits(t, Supersede(id, body, at), SetSide(|t.rows|, active.value));
      assert VersionedUpdate(t, id, false, active, body, at)
          == [Supersede(id, body, at), SetSide(|t.rows|, active.value)];
    } else {
      OneEdit(t, Supersede(id, body, at));
      assert VersionedUpdate(t, id, false, active, body, at) == [Supersede(id, body, at)];
    }
  }

  predicate GivesPromptBody(p: PromptPatch) {
    !p.title.Absent? || !p.responseType.Absent? || !p.required.Absent? || !p.displayOrder.Absent?
  }

  predicate GivesRuleBody(p: RulePatch) {
    !p.title.Absent? || !p.conditionField.Absent? || !p.conditionOperator.Absent? || !p.conditionValue.Absent?
    || !p.actions.Absent?
  }

  /** What an edit of a prompt writes, and when it is refused. */
  lemma {:induction false} UpdatePromptWrites(s: Store, op: Op)
    requires op.UpdatePrompt?
    ensures Refusal(s, op).None? <==>
              && op.id < |s.prompts.rows| && s.prompts.rows[op.id].owner == op.category
              && s.prompts.rows[op.id].replacedAt.None?
              && (GivesPromptBody(op.promptPatch) || op.promptPatch.active.Present?)
    ensures Refusal(s, op).None? ==>
              var t, u, p := s.prompts, Step(s, op).prompts, op.promptPatch;
              if !GivesPromptBody(p) then u.rows == t.rows[op.id := t.rows[op.id].(side := p.active.value)]
              else
                && Succeeded(t, u, op.id, op.at) && Writes(p.active, t.rows[op.id].side, u.rows[|t.rows|].side)
                && (var before, after := t.rows[op.id].body, u.rows[|t.rows|].body;
                    && Writes(p.title, before.title, after.title)
                    && Writes(p.responseType, before.responseType, after.responseType)
                    && Writes(p.required, before.required, after.required)
                    && Writes(p.displayOrder, before.displayOrder, after.displayOrder))
  {
    if Refusal(s, op).None? {
      var p, row := op.promptPatch, s.prompts.rows[op.id];
      var body := MergePrompt(row.body, p.title, p.responseType, p.required, p.displayOrder);
      if GivesPromptBody(p) {
        SupersedeWrites(s.prompts, op.id, p.active, body, op.at);
      } else {
        ActiveWrites(s.prompts, op.id, p.active, body, op.at);
      }
    }
  }

  /** The same for a rule. */
  lemma {:induction false} UpdateRuleWrites(s: Store, op: Op)
    requires op.UpdateRule?
    ensures Refusal(s, op).None? <==>
              && op.id < |s.rules.rows| && s.rules.rows[op.id].owner == op.category
              && s.rules.rows[op.id].replacedAt.None?
              && (GivesRuleBody(op.rulePatch) || op.rulePatch.active.Present?)
    ensures Refusal(s, op).None? ==>
              var t, u, p := s.rules, Step(s, op).rules, op.rulePatch;
              if !GivesRuleBody(p) then u.rows == t.rows[op.id := t.rows[op.id].(side := p.active.value)]
              else
                && Succeeded(t, u, op.id, op.at) && Writes(p.active, t.rows[op.id].side, u.rows[|t.rows|].side)
                && (var before, after := t.rows[op.id].body, u.rows[|t.rows|].body;
                    && Writes(p.title, before.title, after.title)
                    && Writes(p.conditionField, before.conditionField, after.conditionField)
                    && Writes(p.conditionOperator, before.conditionOperator, after.conditionOperator)
                    && (p.conditionValue.Present? ==> after.conditionValue == Some(p.conditionValue.value))
                    && (!p.conditionValue.Present? ==> after.conditionValue == before.conditionValue)
                    && Writes(p.actions, before.actions, after.actions))
  {
    if Refusal(s, op).None? {
      var p, row := op.rulePatch, s.rules.rows[op.id];
      var body := MergeRule(row.body, p.title, p.conditionField, p.conditionOperator, p.conditionValue, p.actions);
      if GivesRuleBody(p) {
        SupersedeWrites(s.rules, op.id, p.active, body, op.at);
      } else {
        ActiveWrites(s.rules, op.id, p.active, body, op.at);
      }
    }
  }

  /** A new prompt or rule is active, at version 1, in an existing category. */
  lemma {:induction false} AddWrites(s: Store, op: Op)
    requires op.AddPrompt? || op.AddRule?
    ensures Refusal(s, op).None? <==> op.category < |s.categories.rows|
    ensures op.AddPrompt? && Refusal(s, op).None? ==>
              Step(s, op).prompts.rows == s.prompts.rows + [Row(op.category, op.prompt, true, 1, Option.None)]
    ensures op.AddRule? && Refusal(s, op).None? ==>
              Step(s, op).rules.rows == s.rules.rows + [Row(op.category, op.rule, true, 1, Option.None)]
  {
    if Refusal(s, op).None? {
      if op.AddPrompt? {
        OneEdit(s.prompts, Insert(op.category, op.prompt, true));
      } else {
        OneEdit(s.rules, Insert(op.category, op.rule, true));
      }
    }
  }

  // ------------------------------------------------------------------------------------------
  // Errors
  // ------------------------------------------------------------------------------------------

  /** 404 for a category that does not exist, whatever is asked of it. */
  lemma {:induction false} MissingCategories(s: Store, op: Op)
    requires op.UpdateCategory? || op.DeactivateCategory? || op.SoftDeleteCategory?
    ensures Refusal(s, op) == Some(NotFound) <==> |s.categories.rows| <= op.id
    ensures op.id < |s.categories.rows| && op.UpdateCategory? ==>
              (Refusal(s, op) == Some(BadRequest) <==>
                 LiveCategory(s.categories, op.id) && op.categoryPatch == CategoryPatch(Absent, Absent, Absent, Absent))
    ensures Refusal(s, op).Some? ==> Refusal(s, op).value in {NotFound, Conflict, BadRequest}
  {
  }

  /** Why an edit of a prompt is refused. */
  lemma {:induction false} PromptErrors(s: Store, op: Op)
    requires op.UpdatePrompt? && Refusal(s, op).Some?
    ensures var found := op.id < |s.prompts.rows| && s.prompts.rows[op.id].owner == op.category;
            Refusal(s, op).value ==
            if !found then NotFound
            else if s.prompts.rows[op.id].replacedAt.Some? then Conflict
            else if op.promptPatch.active.Absent? then BadRequest
            else ServerError
  {
  }

  /** Why an edit of a rule is refused. */
  lemma {:induction false} RuleErrors(s: Store, op: Op)
    requires op.UpdateRule? && Refusal(s, op).Some?
    ensures var found := op.id < |s.rules.rows| && s.rules.rows[op.id].owner == op.category;
            Refusal(s, op).value ==
            if !found then NotFound
            else if s.rules.rows[op.id].replacedAt.Some? then Conflict
            else if op.rulePatch.active.Absent? then BadRequest
            else ServerError
  {
  }
}
