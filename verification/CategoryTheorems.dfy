/** What edits and imports of the category store keep over every run. */
module CategoryTheorems {
  import opened Common
  import opened Versioning
  import opened BundleImport
  import opened CategoryStore

  /** The tables an accepted import leaves are those of its five sections. */
  lemma ImportStep(s: Store, op: Op)
    requires op.ImportBundle? && Refusal(s, op).None?
    ensures Step(s, op).prompts == ImportPrompts(s, op).value.table
    ensures Step(s, op).rules == ImportRules(s, op).value.table
  {
    var cat := Target(s, op.payload);
    var promptLook := Lookup(PROMPTS, s.prompts, cat, |s.prompts.rows|);
    var ruleLook := Lookup(RULES, s.rules, cat, |s.rules.rows|);
    ImportIsReplay(PROMPTS, cat, promptLook, s.prompts, op.payload.prompts, op.clock);
    ImportIsReplay(RULES, cat, ruleLook, s.rules, op.payload.rules, op.ruleClock);
  }

  // ------------------------------------------------------------------------------------------
  // One live category per slug
  // ------------------------------------------------------------------------------------------

  ghost predicate SlugsUnique(t: Table<CategoryBody, Option<Time>>) {
    forall i: nat, j: nat :: LiveCategory(t, i) && LiveCategory(t, j) && t.rows[i].body.slug == t.rows[j].body.slug
      ==> i == j
  }

  lemma StepKeepsSlugsUnique(s: Store, op: Op)
    requires SlugsUnique(s.categories)
    ensures SlugsUnique(Step(s, op).categories)
  {
    var edits := CategoryEdits(s, op);
    if edits != [] {
      assert edits[..0] == [];
      assert Replay(s.categories, edits) == Apply(s.categories, edits[0]);
    }
  }

  /** Over every run, at most one unreplaced, undeleted category holds a slug. */
  lemma {:induction false} RunsKeepSlugsUnique(s: Store, ops: seq<Op>)
    requires SlugsUnique(s.categories)
    ensures SlugsUnique(Run(s, ops).categories)
  {
    if ops != [] {
      RunsKeepSlugsUnique(s, ops[..|ops| - 1]);
      StepKeepsSlugsUnique(Run(s, ops[..|ops| - 1]), ops[|ops| - 1]);
    }
  }

  // ------------------------------------------------------------------------------------------
  // Version chains
  // ------------------------------------------------------------------------------------------

  ghost predicate StoreChained(s: Store) {
    Chained(s.categories) && Chained(s.prompts) && Chained(s.rules)
  }

  /** The call is an import in which two items of the prompt section would replace the same row. */
  predicate PromptDoubleChange(s: Store, op: Op) {
    op.ImportBundle? && Refusal(s, op).None? &&
    var look := Lookup(PROMPTS, s.prompts, Target(s, op.payload), |s.prompts.rows|);
    DoubleChange(PROMPTS, s.prompts, look, op.payload.prompts)
  }

  /** The call is an import in which two items of the rule section would replace the same row. */
  predicate RuleDoubleChange(s: Store, op: Op) {
    op.ImportBundle? && Refusal(s, op).None? &&
    var look := Lookup(RULES, s.rules, Target(s, op.payload), |s.rules.rows|);
    DoubleChange(RULES, s.rules, look, op.payload.rules)
  }

  predicate DoubleChangeIn(s: Store, op: Op) {
    PromptDoubleChange(s, op) || RuleDoubleChange(s, op)
  }

  lemma OneEdit<B, M>(t: Table<B, M>, e: Edit<B, M>)
    ensures Replay(t, [e]) == Apply(t, e) && (LegalRun(t, [e]) <==> Legal(t, e))
  {
    assert [e][..0] == [];
  }

  lemma TwoEdits<B, M>(t: Table<B, M>, e: Edit<B, M>, f: Edit<B, M>)
    ensures Replay(t, [e, f]) == Apply(Apply(t, e), f)
    ensures LegalRun(t, [e, f]) <==> Legal(t, e) && Legal(Apply(t, e), f)
  {
    OneEdit(t, e);
    assert [e, f][..1] == [e];
  }

  /** The categories table once the import has its target. */
  function WithTarget(s: Store, payload: Payload, actor: nat): Table<CategoryBody, Option<Time>> {
    if BySlug(s, payload.slug).Some? then s.categories
    else Apply(s.categories, Insert(
      actor, CategoryBody(payload.name, payload.slug, payload.status, payload.displayOrder), None))
  }

  /** The tables an accepted import leaves. */
  lemma ImportAccepted(s: Store, op: Op)
    requires op.ImportBundle? && Refusal(s, op).None?
    ensures Step(s, op) == Store(
      WithTarget(s, op.payload, op.actor), ImportComponents(s, op).value.table, ImportPrompts(s, op).value.table,
      ImportAttachments(s, op).value.table, ImportSlots(s, op).value.table, ImportRules(s, op).value.table)
  {
    ImportStep(s, op);
    var edits := CategoryEdits(s, op);
    if edits != [] {
      OneEdit(s.categories, edits[0]);
      assert edits == [edits[0]];
    }
  }

  lemma ImportRefused(s: Store, op: Op)
    requires op.ImportBundle? && Refusal(s, op).Some?
    ensures Refusal(s, op) == Some(ServerError) && Step(s, op) == s
  {
  }

  lemma VersionedUpdateIsLegal<B>(t: Table<B, bool>, id: nat, onlyActive: bool, active: Field<bool>, body: B, at: Time)
    requires id < |t.rows| && t.rows[id].Current()
    ensures LegalRun(t, VersionedUpdate(t, id, onlyActive, active, body, at))
  {
    if onlyActive && active.Present? {
      OneEdit(t, SetSide(id, active.value));
    } else if active.Present? {
      TwoEdits(t, Supersede(id, body, at), SetSide(|t.rows|, active.value));
      assert VersionedUpdate(t, id, onlyActive, active, body, at)
          == [Supersede(id, body, at), SetSide(|t.rows|, active.value)];
    } else {
      OneEdit(t, Supersede(id, body, at));
      assert VersionedUpdate(t, id, onlyActive, active, body, at) == [Supersede(id, body, at)];
    }
  }

  lemma {:induction false} ImportedEditsRewriteNothing<I(!new), B(!new), M>(
    sec: Section<I, B, M>, cat: nat, t: Table<B, M>, items: seq<I>, clock: nat -> Time)
    requires NeverOverwrites(sec) && Import(sec, cat, t, items, clock).Some?
    ensures NoRewrites(Import(sec, cat, t, items, clock).value.edits)
  {
    ImportEdits(sec, cat, Lookup(sec, t, cat, |t.rows|), t, items, clock);
    var edits := Import(sec, cat, t, items, clock).value.edits;
    forall k | 0 <= k < |edits| ensures !edits[k].Rewrite? {
      assert edits[k] in edits;
    }
  }

  lemma CategoryEditsAreLegal(s: Store, op: Op)
    ensures LegalRun(s.categories, CategoryEdits(s, op)) && NoRewrites(CategoryEdits(s, op))
  {
    var edits := CategoryEdits(s, op);
    if edits != [] {
      OneEdit(s.categories, edits[0]);
      assert edits == [edits[0]];
    }
  }

  lemma PromptEditsAreLegalIff(s: Store, op: Op)
    ensures NoRewrites(PromptEdits(s, op))
    ensures LegalRun(s.prompts, PromptEdits(s, op)) <==> !PromptDoubleChange(s, op)
  {
    if Refusal(s, op).None? {
      match op {
        case AddPrompt(category, prompt) => OneEdit(s.prompts, Insert(category, prompt, true));
        case UpdatePrompt(_, id, patch, at) =>
          VersionedUpdateIsLegal(s.prompts, id, OnlyActivePrompt(patch), patch.active,
                                 MergePrompt(s.prompts.rows[id].body, patch.title, patch.responseType, patch.required,
                                             patch.displayOrder), at);
        case ImportBundle(payload, _, clock, _) =>
          PromptLaws();
          ImportIsLegalIff(PROMPTS, Target(s, payload), s.prompts, payload.prompts, clock);
          ImportedEditsRewriteNothing(PROMPTS, Target(s, payload), s.prompts, payload.prompts, clock);
        case _ =>
      }
    }
  }

  lemma RuleEditsAreLegalIff(s: Store, op: Op)
    ensures NoRewrites(RuleEdits(s, op))
    ensures LegalRun(s.rules, RuleEdits(s, op)) <==> !RuleDoubleChange(s, op)
  {
    if Refusal(s, op).None? {
      match op {
        case AddRule(category, rule) => OneEdit(s.rules, Insert(category, rule, true));
        case UpdateRule(_, id, patch, at) =>
          VersionedUpdateIsLegal(s.rules, id, OnlyActiveRule(patch), patch.active,
                                 MergeRule(s.rules.rows[id].body, patch.title, patch.conditionField,
                                           patch.conditionOperator, patch.conditionValue, patch.actions), at);
        case ImportBundle(payload, _, _, ruleClock) =>
          RuleLaws();
          ImportIsLegalIff(RULES, Target(s, payload), s.rules, payload.rules, ruleClock);
          ImportedEditsRewriteNothing(RULES, Target(s, payload), s.rules, payload.rules, ruleClock);
        case _ =>
      }
    }
  }

  /** A call leaves the version chains intact exactly when it is not an import that changes one row twice. */
  lemma {:induction false} StepKeepsChainsIff(s: Store, op: Op)
    requires StoreChained(s)
    ensures StoreChained(Step(s, op)) <==> !DoubleChangeIn(s, op)
  {
    CategoryEditsAreLegal(s, op);
    PromptEditsAreLegalIff(s, op);
    RuleEditsAreLegalIff(s, op);
    ReplayStaysChainedIff(s.categories, CategoryEdits(s, op));
    ReplayStaysChainedIff(s.prompts, PromptEdits(s, op));
    ReplayStaysChainedIff(s.rules, RuleEdits(s, op));
  }

  ghost predicate ChainedThroughout(s: Store, ops: seq<Op>) {
    StoreChained(Run(s, ops)) && (ops == [] || ChainedThroughout(s, ops[..|ops| - 1]))
  }

  predicate NoDoubleChanges(s: Store, ops: seq<Op>) {
    ops == [] ||
    (NoDoubleChanges(s, ops[..|ops| - 1]) && !DoubleChangeIn(Run(s, ops[..|ops| - 1]), ops[|ops| - 1]))
  }

  /**
    Over every run, the category, prompt and rule chains stay chains (versions up by one, no branch, one current row)
    at every point if and only if no import changes one row twice; payloads with distinct labels never do.
   */
  lemma {:induction false} RunsStayChainedIff(s: Store, ops: seq<Op>)
    requires StoreChained(s)
    ensures ChainedThroughout(s, ops) <==> NoDoubleChanges(s, ops)
  {
    if ops != [] {
      var n := |ops| - 1;
      RunsStayChainedIff(s, ops[..n]);
      if ChainedThroughout(s, ops[..n]) {
        StepKeepsChainsIff(Run(s, ops[..n]), ops[n]);
      }
    }
  }

  lemma DistinctPayloadsChangeOnce(s: Store, op: Op)
    requires op.ImportBundle? && DistinctItems(PROMPTS, op.payload.prompts) && DistinctItems(RULES, op.payload.rules)
    ensures !DoubleChangeIn(s, op)
  {
    if Refusal(s, op).None? {
      var cat := Target(s, op.payload);
      var promptLook := Lookup(PROMPTS, s.prompts, cat, |s.prompts.rows|);
      DistinctItemsChangeOnce(PROMPTS, s.prompts, promptLook, op.payload.prompts, "");
      DistinctItemsChangeOnce(RULES, s.rules, Lookup(RULES, s.rules, cat, |s.rules.rows|), op.payload.rules, "");
    }
  }

  // ------------------------------------------------------------------------------------------
  // History
  // ------------------------------------------------------------------------------------------

  /** A versioned table of the store, and the edits a call makes to it. */
  datatype Lens<!B, !M> = Lens(table: Store -> Table<B, M>, edits: (Store, Op) -> seq<Edit<B, M>>)

  const PROMPT_LENS: Lens<PromptBody, bool> := Lens((s: Store) => s.prompts, PromptEdits)
  const RULE_LENS: Lens<RuleBody, bool> := Lens((s: Store) => s.rules, RuleEdits)
  const CATEGORY_LENS: Lens<CategoryBody, Option<Time>> := Lens((s: Store) => s.categories, CategoryEdits)

  /** Every clock reading of the call comes after `instant`. */
  ghost predicate After(op: Op, instant: Time) {
    match op
    case UpdateCategory(_, _, at) => instant < at
    case DeactivateCategory(_, at) => instant < at
    case UpdatePrompt(_, _, _, at) => instant < at
    case UpdateRule(_, _, _, at) => instant < at
    case ImportBundle(_, _, clock, ruleClock) => forall n: nat :: instant < clock(n) && instant < ruleClock(n)
    case _ => true
  }

  /** Every clock reading of the call comes by `instant`. */
  ghost predicate By(op: Op, instant: Time) {
    match op
    case UpdateCategory(_, _, at) => at <= instant
    case DeactivateCategory(_, at) => at <= instant
    case UpdatePrompt(_, _, _, at) => at <= instant
    case UpdateRule(_, _, _, at) => at <= instant
    case ImportBundle(_, _, clock, ruleClock) => forall n: nat :: clock(n) <= instant && ruleClock(n) <= instant
    case _ => true
  }

  /** The lens follows the store through the call, and its edits carry the call's clock readings. */
  ghost predicate LensLaw<B, M>(lens: Lens<B, M>, s: Store, op: Op) {
    && lens.table(Step(s, op)) == Replay(lens.table(s), lens.edits(s, op))
    && NoRewrites(lens.edits(s, op))
    && (forall instant :: After(op, instant) ==> StampedAfter(lens.edits(s, op), instant))
    && (forall instant :: By(op, instant) ==> StampedBy(lens.edits(s, op), instant))
    && SupersedesCurrent(lens.table(s), lens.edits(s, op))
    && (!DoubleChangeIn(s, op) ==> LegalRun(lens.table(s), lens.edits(s, op)))
  }

  ghost predicate LensLaws<B, M>(lens: Lens<B, M>) {
    forall s, op :: LensLaw(lens, s, op)
  }

  lemma {:induction false} ImportStamps<I(!new), B(!new), M>(
    sec: Section<I, B, M>, cat: nat, t: Table<B, M>, items: seq<I>, clock: nat -> Time, instant: Time)
    requires NeverOverwrites(sec) && Import(sec, cat, t, items, clock).Some?
    ensures (forall n: nat :: instant < clock(n)) ==>
              StampedAfter(Import(sec, cat, t, items, clock).value.edits, instant)
    ensures (forall n: nat :: clock(n) <= instant) ==> StampedBy(Import(sec, cat, t, items, clock).value.edits, instant)
  {
    ImportEdits(sec, cat, Lookup(sec, t, cat, |t.rows|), t, items, clock);
    var edits := Import(sec, cat, t, items, clock).value.edits;
    forall k | 0 <= k < |edits| && edits[k].Supersede? ensures exists n: nat :: edits[k].at == clock(n) {
      assert edits[k] in edits;
    }
  }

  lemma {:induction false} PromptStamps(s: Store, op: Op, instant: Time)
    ensures After(op, instant) ==> StampedAfter(PromptEdits(s, op), instant)
    ensures By(op, instant) ==> StampedBy(PromptEdits(s, op), instant)
  {
    if op.ImportBundle? && Refusal(s, op).None? {
      PromptLaws();
      ImportStamps(PROMPTS, Target(s, op.payload), s.prompts, op.payload.prompts, op.clock, instant);
    }
  }

  lemma {:induction false} PromptsSupersedeCurrent(s: Store, op: Op)
    ensures SupersedesCurrent(s.prompts, PromptEdits(s, op))
  {
    if op.ImportBundle? && Refusal(s, op).None? {
      PromptLaws();
      ImportSupersedesCurrent(PROMPTS, Target(s, op.payload), s.prompts, op.payload.prompts, op.clock);
      forall k | 0 <= k < |PromptEdits(s, op)| ensures PromptEdits(s, op)[k] in ImportPrompts(s, op).value.edits {}
    }
  }

  lemma {:induction false} RulesSupersedeCurrent(s: Store, op: Op)
    ensures SupersedesCurrent(s.rules, RuleEdits(s, op))
  {
    if op.ImportBundle? && Refusal(s, op).None? {
      RuleLaws();
      ImportSupersedesCurrent(RULES, Target(s, op.payload), s.rules, op.payload.rules, op.ruleClock);
      forall k | 0 <= k < |RuleEdits(s, op)| ensures RuleEdits(s, op)[k] in ImportRules(s, op).value.edits {}
    }
  }

  lemma {:induction false} PromptLensLaw(s: Store, op: Op)
    ensures LensLaw(PROMPT_LENS, s, op)
  {
    PromptEditsAreLegalIff(s, op);
    forall instant
      ensures After(op, instant) ==> StampedAfter(PromptEdits(s, op), instant)
      ensures By(op, instant) ==> StampedBy(PromptEdits(s, op), instant)
    {
      PromptStamps(s, op, instant);
    }
    PromptsSupersedeCurrent(s, op);
    assert PROMPT_LENS.edits(s, op) == PromptEdits(s, op);
    assert PROMPT_LENS.table(s) == s.prompts && PROMPT_LENS.table(Step(s, op)) == Step(s, op).prompts;
  }

  lemma {:induction false} PromptLensLaws()
    ensures LensLaws(PROMPT_LENS)
  {
    forall s, op ensures LensLaw(PROMPT_LENS, s, op) {
      PromptLensLaw(s, op);
    }
  }

  lemma {:induction false} RuleStamps(s: Store, op: Op, instant: Time)
    ensures After(op, instant) ==> StampedAfter(RuleEdits(s, op), instant)
    ensures By(op, instant) ==> StampedBy(RuleEdits(s, op), instant)
  {
    if op.ImportBundle? && Refusal(s, op).None? {
      RuleLaws();
      ImportStamps(RULES, Target(s, op.payload), s.rules, op.payload.rules, op.ruleClock, instant);
    }
  }

  lemma {:induction false} RuleLensLaw(s: Store, op: Op)
    ensures LensLaw(RULE_LENS, s, op)
  {
    RuleEditsAreLegalIff(s, op);
    forall instant
      ensures After(op, instant) ==> StampedAfter(RuleEdits(s, op), instant)
      ensures By(op, instant) ==> StampedBy(RuleEdits(s, op), instant)
    {
      RuleStamps(s, op, instant);
    }
    RulesSupersedeCurrent(s, op);
    assert RULE_LENS.edits(s, op) == RuleEdits(s, op);
    assert RULE_LENS.table(s) == s.rules && RULE_LENS.table(Step(s, op)) == Step(s, op).rules;
  }

  lemma {:induction false} RuleLensLaws()
    ensures LensLaws(RULE_LENS)
  {
    forall s, op ensures LensLaw(RULE_LENS, s, op) {
      RuleLensLaw(s, op);
    }
  }

  lemma {:induction false} CategoryLensLaws()
    ensures LensLaws(CATEGORY_LENS)
  {
    forall s, op ensures LensLaw(CATEGORY_LENS, s, op) {
      CategoryEditsAreLegal(s, op);
    }
  }

  function RunEdits<B, M>(lens: Lens<B, M>, s: Store, ops: seq<Op>): seq<Edit<B, M>> {
    if ops == [] then []
    else RunEdits(lens, s, ops[..|ops| - 1]) + lens.edits(Run(s, ops[..|ops| - 1]), ops[|ops| - 1])
  }

  /** A run of calls is a run of edits on each versioned table. */
  lemma {:induction false} RunIsReplay<B, M>(lens: Lens<B, M>, s: Store, ops: seq<Op>)
    requires LensLaws(lens)
    ensures lens.table(Run(s, ops)) == Replay(lens.table(s), RunEdits(lens, s, ops))
    ensures NoRewrites(RunEdits(lens, s, ops))
    ensures NoDoubleChanges(s, ops) ==> LegalRun(lens.table(s), RunEdits(lens, s, ops))
  {
    if ops != [] {
      var n := |ops| - 1;
      RunIsReplay(lens, s, ops[..n]);
      assert LensLaw(lens, Run(s, ops[..n]), ops[n]);
      ReplayAppend(lens.table(s), RunEdits(lens, s, ops[..n]), lens.edits(Run(s, ops[..n]), ops[n]));
      LegalRunAppend(lens.table(s), RunEdits(lens, s, ops[..n]), lens.edits(Run(s, ops[..n]), ops[n]));
    }
  }

  lemma {:induction false} RunStampsAfter<B, M>(lens: Lens<B, M>, s: Store, ops: seq<Op>, instant: Time)
    requires LensLaws(lens) && forall op :: op in ops ==> After(op, instant)
    ensures StampedAfter(RunEdits(lens, s, ops), instant)
  {
    if ops != [] {
      var n := |ops| - 1;
      assert forall op :: op in ops[..n] ==> op in ops;
      RunStampsAfter(lens, s, ops[..n], instant);
      assert LensLaw(lens, Run(s, ops[..n]), ops[n]);
      assert After(ops[n], instant);
      assert StampedAfter(lens.edits(Run(s, ops[..n]), ops[n]), instant);
    }
  }

  lemma {:induction false} RunStampsBy<B, M>(lens: Lens<B, M>, s: Store, ops: seq<Op>, instant: Time)
    requires LensLaws(lens) && forall op :: op in ops ==> By(op, instant)
    ensures StampedBy(RunEdits(lens, s, ops), instant)
  {
    if ops != [] {
      var n := |ops| - 1;
      assert forall op :: op in ops[..n] ==> op in ops;
      RunStampsBy(lens, s, ops[..n], instant);
      assert LensLaw(lens, Run(s, ops[..n]), ops[n]);
      assert By(ops[n], instant);
      assert StampedBy(lens.edits(Run(s, ops[..n]), ops[n]), instant);
    }
  }

  /** Once a row is replaced, no later call stamps it again. */
  lemma {:induction false} ReplacedRowsStay<B, M>(lens: Lens<B, M>, s: Store, ops: seq<Op>, id: nat)
    requires LensLaws(lens) && |lens.table(s).rows| == |lens.table(s).prior|
    requires id < |lens.table(s).rows| && !lens.table(s).rows[id].Current()
    ensures LastStamp(RunEdits(lens, s, ops), id).None?
  {
    if ops != [] {
      var n := |ops| - 1;
      var before := RunEdits(lens, s, ops[..n]);
      ReplacedRowsStay(lens, s, ops[..n], id);
      RunIsReplay(lens, s, ops[..n]);
      RowsAreFrozen(lens.table(s), before, id);
      assert LensLaw(lens, Run(s, ops[..n]), ops[n]);
      ReplacedRowsAreLeft(lens.table(Run(s, ops[..n])), lens.edits(Run(s, ops[..n]), ops[n]), id);
      LastStampAppend(before, lens.edits(Run(s, ops[..n]), ops[n]), id);
    }
  }

  /** A row current at `instant` is read back at that instant, with its version and body, after any later run. */
  lemma {:induction false} RowIsAnchored<B, M>(
    lens: Lens<B, M>, s: Store, ops: seq<Op>, id: nat, instant: Time)
    requires LensLaws(lens) && |lens.table(s).rows| == |lens.table(s).prior|
    requires id < |lens.table(s).rows| && lens.table(s).rows[id].Current()
    requires forall op :: op in ops ==> After(op, instant)
    ensures var read := VersionAt(lens.table(Run(s, ops)), id, instant);
            read.Some? && SameContent(read.value, lens.table(s).rows[id])
  {
    RunIsReplay(lens, s, ops);
    RunStampsAfter(lens, s, ops, instant);
    var edits := RunEdits(lens, s, ops);
    AnchoredIff(lens.table(s), edits, id, instant);
    if LastStamp(edits, id).Some? {
      LastStampIsAStamp(edits, id);
    }
  }

  /**
    History is anchored: for every prompt and rule in the snapshot a submission takes, whatever edits, toggles and
    imports follow with clocks past the submission, reading that id at the submission time gives the row with the
    snapshot's version and the body it had; only `active` may have changed.
   */
  lemma {:induction false} SubmissionsStayAnchored(s: Store, ops: seq<Op>, category: nat, instant: Time)
    requires |s.prompts.rows| == |s.prompts.prior| && |s.rules.rows| == |s.rules.prior|
    requires forall op :: op in ops ==> After(op, instant)
    ensures forall id :: id in Snapshot(s.prompts, category) ==>
              var read := VersionAt(Run(s, ops).prompts, id, instant);
              read.Some? && read.value.version == Snapshot(s.prompts, category)[id]
              && SameContent(read.value, s.prompts.rows[id])
    ensures forall id :: id in Snapshot(s.rules, category) ==>
              var read := VersionAt(Run(s, ops).rules, id, instant);
              read.Some? && read.value.version == Snapshot(s.rules, category)[id]
              && SameContent(read.value, s.rules.rows[id])
  {
    PromptLensLaws();
    RuleLensLaws();
    forall id | id in Snapshot(s.prompts, category)
      ensures var read := VersionAt(Run(s, ops).prompts, id, instant);
              read.Some? && SameContent(read.value, s.prompts.rows[id])
    {
      RowIsAnchored(PROMPT_LENS, s, ops, id, instant);
    }
    forall id | id in Snapshot(s.rules, category)
      ensures var read := VersionAt(Run(s, ops).rules, id, instant);
              read.Some? && SameContent(read.value, s.rules.rows[id])
    {
      RowIsAnchored(RULE_LENS, s, ops, id, instant);
    }
  }

  /** A snapshot names each chain of the category by exactly one row: its latest version. */
  lemma {:induction false} SnapshotNamesEachChainOnce<B, M>(t: Table<B, M>, category: nat, i: nat) returns (head: nat)
    requires Chained(t) && i < |t.rows| && t.rows[i].owner == category
    ensures head in Snapshot(t, category) && head < |t.rows| && Root(t, head) == Root(t, i)
    ensures t.rows[i].version <= Snapshot(t, category)[head]
    ensures forall id: nat :: id in Snapshot(t, category) && Root(t, id) == Root(t, i) ==> id == head
  {
    head := OneCurrentRowPerChain(t, i);
    ChainsHaveOneOwner(t, i);
    ChainsHaveOneOwner(t, head);
  }

  lemma {:induction false} ChainsHaveOneOwner<B, M>(t: Table<B, M>, i: nat)
    requires Chained(t) && i < |t.rows|
    ensures t.rows[i].owner == t.rows[Root(t, i)].owner
    decreases i
  {
    assert Linked(t, i);
    if t.prior[i].Some? {
      ChainsHaveOneOwner(t, t.prior[i].value);
    }
  }

  /** An edit stamped at the very instant of the submission loses the anchor: the clock must move on. */
  lemma {:induction false} TiedEditLosesTheAnchor(s: Store, op: Op)
    requires op.UpdatePrompt? && Refusal(s, op).None? && !OnlyActivePrompt(op.promptPatch)
    ensures VersionAt(Step(s, op).prompts, op.id, op.at).None?
  {
    var edits := PromptEdits(s, op);
    assert edits[0] == Supersede(op.id, edits[0].body, op.at);
    assert Replay(s.prompts, edits[..1]) == Apply(s.prompts, edits[0]) by {
      assert edits[..1][..0] == [];
    }
    assert edits[..|edits|] == edits;
  }

  /**
    Point-in-time reads refine replay, for each versioned table of the store: after a run from a chained store whose
    early calls carry clocks up to `instant` and whose late calls carry clocks past it, in a chain begun by the early
    calls the lowest version readable at `instant` is the row the early calls alone leave current.
   */
  lemma {:induction false} StoreReadsRefineReplay<B, M>(
    lens: Lens<B, M>, early: seq<Op>, late: seq<Op>, instant: Time, root: nat, i: nat)
    requires LensLaws(lens) && lens.table(EMPTY_STORE) == Empty()
    requires NoDoubleChanges(EMPTY_STORE, early) && NoDoubleChanges(Run(EMPTY_STORE, early), late)
    requires (forall op :: op in early ==> By(op, instant)) && (forall op :: op in late ==> After(op, instant))
    requires root < |lens.table(Run(EMPTY_STORE, early)).rows|
    ensures var then_ := lens.table(Run(EMPTY_STORE, early));
            var now := lens.table(Run(Run(EMPTY_STORE, early), late));
            && Chained(then_) && Chained(now)
            && ((i < |now.rows| && Root(now, i) == root && LowestReadable(now, i, instant)) <==>
                (i < |then_.rows| && Root(then_, i) == root && then_.rows[i].Current()))
  {
    var s := Run(EMPTY_STORE, early);
    RunIsReplay(lens, EMPTY_STORE, early);
    RunIsReplay(lens, s, late);
    RunStampsBy(lens, EMPTY_STORE, early, instant);
    RunStampsAfter(lens, s, late, instant);
    var a, b := RunEdits(lens, EMPTY_STORE, early), RunEdits(lens, s, late);
    LegalRunAppend(Empty(), a, b);
    ReplayAppend(Empty(), a, b);
    ReadsAtInstantRefineReplay(Empty(), a, b, instant, i, root);
  }

  const EMPTY_STORE: Store := Store(Empty(), Empty(), Empty(), Empty(), Empty(), Empty())

  /** In the chains begun by `then_`, the lowest version `now` reads at `instant` is the row current in `then_`. */
  ghost predicate ReadsBack<B, M>(then_: Table<B, M>, now: Table<B, M>, instant: Time) {
    && Chained(then_) && Chained(now)
    && (forall i: nat :: i < |now.rows| && Root(now, i) < |then_.rows| ==>
          (LowestReadable(now, i, instant) <==> i < |then_.rows| && then_.rows[i].Current()))
  }

  lemma {:induction false} LensReadsBack<B, M>(lens: Lens<B, M>, early: seq<Op>, late: seq<Op>, instant: Time)
    requires LensLaws(lens) && lens.table(EMPTY_STORE) == Empty()
    requires NoDoubleChanges(EMPTY_STORE, early) && NoDoubleChanges(Run(EMPTY_STORE, early), late)
    requires (forall op :: op in early ==> By(op, instant)) && (forall op :: op in late ==> After(op, instant))
    ensures ReadsBack(lens.table(Run(EMPTY_STORE, early)), lens.table(Run(Run(EMPTY_STORE, early), late)), instant)
  {
    var s := Run(EMPTY_STORE, early);
    var then_, now := lens.table(s), lens.table(Run(s, late));
    RunIsReplay(lens, EMPTY_STORE, early);
    RunIsReplay(lens, s, late);
    LegalRunsStayChained(Empty(), RunEdits(lens, EMPTY_STORE, early));
    LegalRunsStayChained(then_, RunEdits(lens, s, late));
    forall i: nat | i < |now.rows| && Root(now, i) < |then_.rows|
      ensures LowestReadable(now, i, instant) <==> i < |then_.rows| && then_.rows[i].Current()
    {
      if i < |then_.rows| {
        RootsAreStable(then_, RunEdits(lens, s, late), i);
      }
      StoreReadsRefineReplay(lens, early, late, instant, Root(now, i), i);
    }
  }

  /** The prompts, rules and categories of any run are read back so, at any instant between two of its calls. */
  lemma {:induction false} ReadsRefineReplay(early: seq<Op>, late: seq<Op>, instant: Time)
    requires NoDoubleChanges(EMPTY_STORE, early) && NoDoubleChanges(Run(EMPTY_STORE, early), late)
    requires (forall op :: op in early ==> By(op, instant)) && (forall op :: op in late ==> After(op, instant))
    ensures var s := Run(EMPTY_STORE, early);
            var t := Run(s, late);
            && ReadsBack(s.prompts, t.prompts, instant) && ReadsBack(s.rules, t.rules, instant)
            && ReadsBack(s.categories, t.categories, instant)
  {
    PromptLensLaws();
    RuleLensLaws();
    CategoryLensLaws();
    LensReadsBack(PROMPT_LENS, early, late, instant);
    LensReadsBack(RULE_LENS, early, late, instant);
    LensReadsBack(CATEGORY_LENS, early, late, instant);
  }

  /** A read at an instant is right exactly for the rows that existed then. */
  ghost predicate RightForOldRows<B, M>(then_: Table<B, M>, now: Table<B, M>, instant: Time) {
    forall i: nat :: i < |now.rows| ==> (ReadsRight(then_, now, i, instant) <==> i < |then_.rows|)
  }

  lemma {:induction false} LensReadsRightIff<B, M>(lens: Lens<B, M>, early: seq<Op>, late: seq<Op>, instant: Time)
    requires LensLaws(lens) && lens.table(EMPTY_STORE) == Empty()
    requires (forall op :: op in early ==> By(op, instant)) && (forall op :: op in late ==> After(op, instant))
    ensures RightForOldRows(
              lens.table(Run(EMPTY_STORE, early)), lens.table(Run(Run(EMPTY_STORE, early), late)), instant)
  {
    var s := Run(EMPTY_STORE, early);
    var then_, now := lens.table(s), lens.table(Run(s, late));
    var a, b := RunEdits(lens, EMPTY_STORE, early), RunEdits(lens, s, late);
    RunIsReplay(lens, EMPTY_STORE, early);
    RunIsReplay(lens, s, late);
    RunStampsBy(lens, EMPTY_STORE, early, instant);
    RunStampsAfter(lens, s, late, instant);
    ReplayKeepsShape(Empty(), a);
    forall i: nat | i < |now.rows| ensures ReadsRight(then_, now, i, instant) <==> i < |then_.rows| {
      if i < |then_.rows| {
        if !then_.rows[i].Current() {
          ReplacedRowsStay(lens, s, late, i);
          StampsComeFromEdits(Empty(), a, i);
        }
        OldRowsReadRight(then_, b, i, instant);
      } else {
        NewRowsReadWrong(then_, b, i, instant);
      }
    }
  }

  /**
    Reading a prompt or rule at an instant between two calls of any run returns what was current then, and nothing for
    a row that was not, if and only if the row existed at the instant. (Categories, read the same way, likewise.)
    This holds even where an import has branched a chain.
   */
  lemma {:induction false} ReadsAreRightIff(early: seq<Op>, late: seq<Op>, instant: Time)
    requires (forall op :: op in early ==> By(op, instant)) && (forall op :: op in late ==> After(op, instant))
    ensures var s := Run(EMPTY_STORE, early);
            var t := Run(s, late);
            && RightForOldRows(s.prompts, t.prompts, instant) && RightForOldRows(s.rules, t.rules, instant)
            && RightForOldRows(s.categories, t.categories, instant)
  {
    PromptLensLaws();
    RuleLensLaws();
    CategoryLensLaws();
    LensReadsRightIff(PROMPT_LENS, early, late, instant);
    LensReadsRightIff(RULE_LENS, early, late, instant);
    LensReadsRightIff(CATEGORY_LENS, early, late, instant);
  }

  /**
    A read does not check when a row was made: for an instant before a prompt was edited, both the row that was
    current then and its successor, which did not exist, are returned under their own ids.
   */
  lemma {:induction false} SuccessorAnswersForThePast(s: Store, op: Op, instant: Time)
    requires op.UpdatePrompt? && Refusal(s, op).None? && !OnlyActivePrompt(op.promptPatch) && instant < op.at
    ensures var was, new_ := VersionAt(Step(s, op).prompts, op.id, instant),
                             VersionAt(Step(s, op).prompts, |s.prompts.rows|, instant);
            was.Some? && new_.Some? && new_.value.version == was.value.version + 1
  {
    var edits := PromptEdits(s, op);
    var superseded := Apply(s.prompts, edits[0]);
    if |edits| == 1 {
      OneEdit(s.prompts, edits[0]);
      assert edits == [edits[0]];
    } else {
      TwoEdits(s.prompts, edits[0], edits[1]);
      assert edits == [edits[0], edits[1]];
    }
  }
}
