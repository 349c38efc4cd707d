/**
  The admin category service: categories with their components, inspection prompts, attachments, photo slots and
  red-flag rules; single edits, and import and export of whole bundles.
 */
module CategoryStore {
  import opened Common
  import opened Text
  import opened Versioning
  import opened BundleImport

  /** A key of a JSON object or of a sparse patch: missing, null, or given. */
  datatype Field<+T> = Absent | Null | Present(value: T)

  /** `d.get(key)`. */
  function Get<T>(f: Field<T>): Option<T> {
    if f.Present? then Some(f.value) else None
  }

  /** `new if new is not None else inherited`. */
  function Inherit<T>(f: Field<T>, inherited: T): T {
    if f.Present? then f.value else inherited
  }

  /** `bool(d.get(key, default))`. */
  function Truth(f: Field<bool>, default: bool): bool {
    match f
    case Absent => default
    case Null => false
    case Present(b) => b
  }

  /** `(label or "").strip().lower()`. */
  function LabelKey(title: Field<string>): string {
    if title.Present? then Normalize(title.value) else ""
  }

  // ------------------------------------------------------------------------------------------
  // Rows and payload items (`title` is the source's `label`, a reserved word here)
  // ------------------------------------------------------------------------------------------

  /** A JSON object of actions, with each value left as its text. */
  type Actions = map<string, string>

  datatype CategoryBody = CategoryBody(name: string, slug: string, status: string, displayOrder: int)
  datatype ComponentBody = ComponentBody(name: string, weight: int, displayOrder: int)  // weight in units of 0.0001 %
  datatype PromptBody = PromptBody(title: string, responseType: string, required: bool, displayOrder: int)
  datatype AttachmentBody = AttachmentBody(title: string, description: Option<string>, displayOrder: int)
  datatype SlotBody = SlotBody(title: string, helperText: Option<string>, required: bool, displayOrder: int)
  datatype RuleBody = RuleBody(
    title: string, conditionField: string, conditionOperator: string, conditionValue: Option<string>, actions: Actions)

  datatype ComponentItem = ComponentItem(
    name: Field<string>, weight: Field<int>, displayOrder: Field<int>, active: Field<bool>)
  datatype PromptItem = PromptItem(
    title: Field<string>, responseType: Field<string>, required: Field<bool>, displayOrder: Field<int>,
    active: Field<bool>)
  datatype AttachmentItem = AttachmentItem(
    title: Field<string>, description: Field<string>, displayOrder: Field<int>, active: Field<bool>)
  datatype SlotItem = SlotItem(
    title: Field<string>, helperText: Field<string>, required: Field<bool>, displayOrder: Field<int>,
    active: Field<bool>)
  datatype RuleItem = RuleItem(
    title: Field<string>, conditionField: Field<string>, conditionOperator: Field<string>,
    conditionValue: Field<string>, actions: Field<Actions>, active: Field<bool>)

  /** The export payload; the `version` and `replaced_at` of single rows are advisory and left out. */
  datatype Payload = Payload(
    name: string, slug: string, status: string, displayOrder: int, version: nat,
    components: seq<ComponentItem>, prompts: seq<PromptItem>, attachments: seq<AttachmentItem>,
    slots: seq<SlotItem>, rules: seq<RuleItem>)

  function FieldOf<T>(o: Option<T>): Field<T> {
    if o.Some? then Present(o.value) else Null
  }

  /** `int(d.get("display_order", 0))`: a null raises. */
  function Order(f: Field<int>): Option<int> {
    match f
    case Absent => Some(0)
    case Null => None
    case Present(n) => Some(n)
  }

  // ------------------------------------------------------------------------------------------
  // The five sections of an import
  // ------------------------------------------------------------------------------------------

  // Components match on name; a new weight is written over the old one.

  function ComponentItemKey(i: ComponentItem): string {
    LabelKey(i.name)
  }

  function ComponentRowKey(b: ComponentBody): string {
    Normalize(b.name)
  }

  function ReactComponent(b: ComponentBody, i: ComponentItem): Action<ComponentBody> {
    if !i.weight.Present? then Fail
    else if b.weight != i.weight.value then Overwrite(b.(weight := i.weight.value))
    else Keep
  }

  function CreateComponent(i: ComponentItem): Option<(ComponentBody, bool)> {
    if i.name.Present? && i.weight.Present? && Order(i.displayOrder).Some? then
      Some((ComponentBody(i.name.value, i.weight.value, Order(i.displayOrder).value), Truth(i.active, true)))
    else None
  }

  function DumpComponent(b: ComponentBody, active: bool): ComponentItem {
    ComponentItem(Present(b.name), Present(b.weight), Present(b.displayOrder), Present(active))
  }

  const COMPONENTS: Section<ComponentItem, ComponentBody, bool> :=
    Section(ComponentItemKey, ComponentRowKey, ReactComponent, CreateComponent, DumpComponent)

  lemma {:induction false} ComponentLaws()
    ensures KeepsKeys(COMPONENTS) && DumpsFaithfully(COMPONENTS)
  {
    forall b: ComponentBody, i: ComponentItem ensures COMPONENTS.react(b, i) == ReactComponent(b, i) {}
    forall i: ComponentItem
      ensures COMPONENTS.itemKey(i) == ComponentItemKey(i)
      ensures COMPONENTS.create(i) == CreateComponent(i)
    {
    }
    forall b: ComponentBody ensures COMPONENTS.rowKey(b) == ComponentRowKey(b) {}
    forall b: ComponentBody, m: bool
      ensures COMPONENTS.dump(b, m) == DumpComponent(b, m)
      ensures CreateComponent(DumpComponent(b, m)) == Some((b, m))
    {
    }
  }

  // Prompts match on label; a changed body supersedes.

  function PromptItemKey(i: PromptItem): string {
    LabelKey(i.title)
  }

  function PromptRowKey(b: PromptBody): string {
    Normalize(b.title)
  }

  function MergePrompt(b: PromptBody, title: Field<string>, responseType: Field<string>, required: Field<bool>,
                       displayOrder: Field<int>): PromptBody
  {
    PromptBody(Inherit(title, b.title), Inherit(responseType, b.responseType), Inherit(required, b.required),
               Inherit(displayOrder, b.displayOrder))
  }

  function ReactPrompt(b: PromptBody, i: PromptItem): Action<PromptBody> {
    if Some(b.responseType) != Get(i.responseType) || Some(b.required) != Get(i.required)
       || Some(b.displayOrder) != Get(i.displayOrder)
    then Replace(MergePrompt(b, Absent, i.responseType, i.required, i.displayOrder))
    else Keep
  }

  function CreatePrompt(i: PromptItem): Option<(PromptBody, bool)> {
    if i.title.Present? && i.responseType.Present? && Order(i.displayOrder).Some? then
      Some((PromptBody(i.title.value, i.responseType.value, Truth(i.required, true), Order(i.displayOrder).value),
            Truth(i.active, true)))
    else None
  }

  function DumpPrompt(b: PromptBody, active: bool): PromptItem {
    PromptItem(Present(b.title), Present(b.responseType), Present(b.required), Present(b.displayOrder), Present(active))
  }

  const PROMPTS: Section<PromptItem, PromptBody, bool> :=
    Section(PromptItemKey, PromptRowKey, ReactPrompt, CreatePrompt, DumpPrompt)

  lemma {:induction false} PromptLaws()
    ensures KeepsKeys(PROMPTS) && DumpsFaithfully(PROMPTS) && NeverOverwrites(PROMPTS)
    ensures forall b, i :: !PROMPTS.react(b, i).Fail?
  {
    forall b: PromptBody, i: PromptItem ensures PROMPTS.react(b, i) == ReactPrompt(b, i) {}
    forall i: PromptItem ensures PROMPTS.itemKey(i) == PromptItemKey(i) && PROMPTS.create(i) == CreatePrompt(i) {}
    forall b: PromptBody ensures PROMPTS.rowKey(b) == PromptRowKey(b) {}
    forall b: PromptBody, m: bool
      ensures PROMPTS.dump(b, m) == DumpPrompt(b, m)
      ensures CreatePrompt(DumpPrompt(b, m)) == Some((b, m))
    {
    }
  }

  // Attachments match on label; a match is left alone.

  function AttachmentItemKey(i: AttachmentItem): string {
    LabelKey(i.title)
  }

  function AttachmentRowKey(b: AttachmentBody): string {
    Normalize(b.title)
  }

  function ReactAttachment(b: AttachmentBody, i: AttachmentItem): Action<AttachmentBody> {
    Keep
  }

  function CreateAttachment(i: AttachmentItem): Option<(AttachmentBody, bool)> {
    if i.title.Present? && Order(i.displayOrder).Some? then
      Some((AttachmentBody(i.title.value, Get(i.description), Order(i.displayOrder).value), Truth(i.active, true)))
    else None
  }

  function DumpAttachment(b: AttachmentBody, active: bool): AttachmentItem {
    AttachmentItem(Present(b.title), FieldOf(b.description), Present(b.displayOrder), Present(active))
  }

  const ATTACHMENTS: Section<AttachmentItem, AttachmentBody, bool> :=
    Section(AttachmentItemKey, AttachmentRowKey, ReactAttachment, CreateAttachment, DumpAttachment)

  lemma {:induction false} AttachmentLaws()
    ensures KeepsKeys(ATTACHMENTS) && DumpsFaithfully(ATTACHMENTS) && NeverOverwrites(ATTACHMENTS)
    ensures forall b, i :: ATTACHMENTS.react(b, i).Keep?
  {
    forall b: AttachmentBody, i: AttachmentItem ensures ATTACHMENTS.react(b, i) == ReactAttachment(b, i) {}
    forall i: AttachmentItem
      ensures ATTACHMENTS.itemKey(i) == AttachmentItemKey(i)
      ensures ATTACHMENTS.create(i) == CreateAttachment(i)
    {
    }
    forall b: AttachmentBody ensures ATTACHMENTS.rowKey(b) == AttachmentRowKey(b) {}
    forall b: AttachmentBody, m: bool
      ensures ATTACHMENTS.dump(b, m) == DumpAttachment(b, m)
      ensures CreateAttachment(DumpAttachment(b, m)) == Some((b, m))
    {
    }
  }

  // Photo slots match on label; a match is left alone.

  function SlotItemKey(i: SlotItem): string {
    LabelKey(i.title)
  }

  function SlotRowKey(b: SlotBody): string {
    Normalize(b.title)
  }

  function ReactSlot(b: SlotBody, i: SlotItem): Action<SlotBody> {
    Keep
  }

  function CreateSlot(i: SlotItem): Option<(SlotBody, bool)> {
    if i.title.Present? && Order(i.displayOrder).Some? then
      Some((SlotBody(i.title.value, Get(i.helperText), Truth(i.required, true), Order(i.displayOrder).value),
            Truth(i.active, true)))
    else None
  }

  function DumpSlot(b: SlotBody, active: bool): SlotItem {
    SlotItem(Present(b.title), FieldOf(b.helperText), Present(b.required), Present(b.displayOrder), Present(active))
  }

  const SLOTS: Section<SlotItem, SlotBody, bool> := Section(SlotItemKey, SlotRowKey, ReactSlot, CreateSlot, DumpSlot)

  lemma {:induction false} SlotLaws()
    ensures KeepsKeys(SLOTS) && DumpsFaithfully(SLOTS) && NeverOverwrites(SLOTS)
    ensures forall b, i :: SLOTS.react(b, i).Keep?
  {
    forall b: SlotBody, i: SlotItem ensures SLOTS.react(b, i) == ReactSlot(b, i) {}
    forall i: SlotItem ensures SLOTS.itemKey(i) == SlotItemKey(i) && SLOTS.create(i) == CreateSlot(i) {}
    forall b: SlotBody ensures SLOTS.rowKey(b) == SlotRowKey(b) {}
    forall b: SlotBody, m: bool
      ensures SLOTS.dump(b, m) == DumpSlot(b, m)
      ensures CreateSlot(DumpSlot(b, m)) == Some((b, m))
    {
    }
  }

  // Rules match on label; a changed body supersedes.

  function RuleItemKey(i: RuleItem): string {
    LabelKey(i.title)
  }

  function RuleRowKey(b: RuleBody): string {
    Normalize(b.title)
  }

  function MergeRule(b: RuleBody, title: Field<string>, conditionField: Field<string>, conditionOperator: Field<string>,
                     conditionValue: Field<string>, actions: Field<Actions>): RuleBody
  {
    RuleBody(Inherit(title, b.title), Inherit(conditionField, b.conditionField),
             Inherit(conditionOperator, b.conditionOperator),
             if conditionValue.Present? then Some(conditionValue.value) else b.conditionValue,
             Inherit(actions, b.actions))
  }

  function ReactRule(b: RuleBody, i: RuleItem): Action<RuleBody> {
    if Some(b.conditionField) != Get(i.conditionField) || Some(b.conditionOperator) != Get(i.conditionOperator)
       || b.conditionValue != Get(i.conditionValue) || b.actions != Inherit(i.actions, map[])
    then Replace(MergeRule(b, Absent, i.conditionField, i.conditionOperator, i.conditionValue, i.actions))
    else Keep
  }

  function CreateRule(i: RuleItem): Option<(RuleBody, bool)> {
    if i.title.Present? && i.conditionField.Present? && i.conditionOperator.Present? then
      Some((RuleBody(i.title.value, i.conditionField.value, i.conditionOperator.value, Get(i.conditionValue),
                     Inherit(i.actions, map[])),
            Truth(i.active, true)))
    else None
  }

  function DumpRule(b: RuleBody, active: bool): RuleItem {
    RuleItem(Present(b.title), Present(b.conditionField), Present(b.conditionOperator), FieldOf(b.conditionValue),
             Present(b.actions), Present(active))
  }

  const RULES: Section<RuleItem, RuleBody, bool> := Section(RuleItemKey, RuleRowKey, ReactRule, CreateRule, DumpRule)

  lemma {:induction false} RuleLaws()
    ensures KeepsKeys(RULES) && DumpsFaithfully(RULES) && NeverOverwrites(RULES)
    ensures forall b, i :: !RULES.react(b, i).Fail?
  {
    forall b: RuleBody, i: RuleItem ensures RULES.react(b, i) == ReactRule(b, i) {}
    forall i: RuleItem ensures RULES.itemKey(i) == RuleItemKey(i) && RULES.create(i) == CreateRule(i) {}
    forall b: RuleBody ensures RULES.rowKey(b) == RuleRowKey(b) {}
    forall b: RuleBody, m: bool
      ensures RULES.dump(b, m) == DumpRule(b, m)
      ensures CreateRule(DumpRule(b, m)) == Some((b, m))
    {
    }
  }

  // ------------------------------------------------------------------------------------------
  // The store and its operations
  // ------------------------------------------------------------------------------------------

  /**
    The tables. Components, attachments and photo slots have no versions: their rows stay at version 1 and are never
    replaced. A category's side field is its `deleted_at`; the others' is `active`.
   */
  datatype Store = Store(
    categories: Table<CategoryBody, Option<Time>>,
    components: Table<ComponentBody, bool>,
    prompts: Table<PromptBody, bool>,
    attachments: Table<AttachmentBody, bool>,
    slots: Table<SlotBody, bool>,
    rules: Table<RuleBody, bool>)

  datatype CategoryPatch = CategoryPatch(
    name: Field<string>, slug: Field<string>, displayOrder: Field<int>, status: Field<string>)
  datatype PromptPatch = PromptPatch(
    title: Field<string>, responseType: Field<string>, required: Field<bool>, displayOrder: Field<int>,
    active: Field<bool>)
  datatype RulePatch = RulePatch(
    title: Field<string>, conditionField: Field<string>, conditionOperator: Field<string>,
    conditionValue: Field<string>, actions: Field<Actions>, active: Field<bool>)

  datatype Op =
    | CreateCategory(name: string, slug: string, displayOrder: int, actor: nat)
    | UpdateCategory(id: nat, categoryPatch: CategoryPatch, at: Time)
    | DeactivateCategory(id: nat, at: Time)
    | SoftDeleteCategory(id: nat, recordsInUse: nat, at: Time)
    | AddPrompt(category: nat, prompt: PromptBody)
    | UpdatePrompt(category: nat, id: nat, promptPatch: PromptPatch, at: Time)
    | AddRule(category: nat, rule: RuleBody)
    | UpdateRule(category: nat, id: nat, rulePatch: RulePatch, at: Time)
    | ImportBundle(payload: Payload, actor: nat, clock: nat -> Time, ruleClock: nat -> Time)

  predicate LiveCategory(t: Table<CategoryBody, Option<Time>>, id: nat) {
    id < |t.rows| && t.rows[id].Current() && t.rows[id].side.None?
  }

  /** `current_category_by_slug`, among the first `n` rows. */
  function CurrentBySlug(t: Table<CategoryBody, Option<Time>>, slug: string, n: nat): (r: Option<nat>)
    requires n <= |t.rows|
    ensures r.Some? ==> r.value < n && LiveCategory(t, r.value) && t.rows[r.value].body.slug == slug
    ensures r.None? ==> forall i: nat :: i < n && LiveCategory(t, i) ==> t.rows[i].body.slug != slug
  {
    if n == 0 then None
    else if LiveCategory(t, n - 1) && t.rows[n - 1].body.slug == slug then Some(n - 1)
    else CurrentBySlug(t, slug, n - 1)
  }

  function BySlug(s: Store, slug: string): Option<nat> {
    CurrentBySlug(s.categories, slug, |s.categories.rows|)
  }

  /** The category an import writes to: the current one for the slug, or else the row it is about to insert. */
  function Target(s: Store, payload: Payload): nat {
    match BySlug(s, payload.slug)
    case Some(id) => id
    case None => |s.categories.rows|
  }

  predicate EmptyCategoryPatch(p: CategoryPatch) {
    p.name.Absent? && p.slug.Absent? && p.displayOrder.Absent? && p.status.Absent?
  }

  /** The patch sets at most `active`. */
  predicate OnlyActivePrompt(p: PromptPatch) {
    p.title.Absent? && p.responseType.Absent? && p.required.Absent? && p.displayOrder.Absent?
  }

  predicate OnlyActiveRule(p: RulePatch) {
    p.title.Absent? && p.conditionField.Absent? && p.conditionOperator.Absent? && p.conditionValue.Absent?
    && p.actions.Absent?
  }

  /** The checks on a versioned child row before an edit. */
  function ChildError<B>(
    t: Table<B, bool>, category: nat, id: nat, onlyActive: bool, active: Field<bool>): Option<Error>
  {
    if |t.rows| <= id || t.rows[id].owner != category then Some(NotFound)
    else if !t.rows[id].Current() then Some(Conflict)
    else if onlyActive && active.Absent? then Some(BadRequest)
    else if onlyActive && active.Null? then Some(ServerError)
    else None
  }

  function ImportPrompts(s: Store, op: Op): Option<Progress<PromptBody, bool>>
    requires op.ImportBundle?
  {
    Import(PROMPTS, Target(s, op.payload), s.prompts, op.payload.prompts, op.clock)
  }

  function ImportRules(s: Store, op: Op): Option<Progress<RuleBody, bool>>
    requires op.ImportBundle?
  {
    Import(RULES, Target(s, op.payload), s.rules, op.payload.rules, op.ruleClock)
  }

  function ImportComponents(s: Store, op: Op): Option<Progress<ComponentBody, bool>>
    requires op.ImportBundle?
  {
    Import(COMPONENTS, Target(s, op.payload), s.components, op.payload.components, op.clock)
  }

  function ImportAttachments(s: Store, op: Op): Option<Progress<AttachmentBody, bool>>
    requires op.ImportBundle?
  {
    Import(ATTACHMENTS, Target(s, op.payload), s.attachments, op.payload.attachments, op.clock)
  }

  function ImportSlots(s: Store, op: Op): Option<Progress<SlotBody, bool>>
    requires op.ImportBundle?
  {
    Import(SLOTS, Target(s, op.payload), s.slots, op.payload.slots, op.clock)
  }

  /** The error a call raises, if any; it then changes nothing. */
  function Refusal(s: Store, op: Op): Option<Error> {
    match op
    case CreateCategory(_, slug, _, _) =>
      if BySlug(s, slug).Some? then Some(Conflict) else None
    case UpdateCategory(id, patch, _) =>
      if |s.categories.rows| <= id then Some(NotFound)
      else if !LiveCategory(s.categories, id) then Some(Conflict)
      else if EmptyCategoryPatch(patch) then Some(BadRequest)
      else if patch.slug.Present? && patch.slug.value != s.categories.rows[id].body.slug
              && BySlug(s, patch.slug.value).Some? then Some(Conflict)
      else None
    case DeactivateCategory(id, _) =>
      if |s.categories.rows| <= id then Some(NotFound)
      else if s.categories.rows[id].body.status == "inactive" then None
      else if !LiveCategory(s.categories, id) then Some(Conflict)
      else None
    case SoftDeleteCategory(id, recordsInUse, _) =>
      if |s.categories.rows| <= id then Some(NotFound)
      else if s.categories.rows[id].side.None? && recordsInUse > 0 then Some(Conflict)
      else None
    case AddPrompt(category, _) =>
      if |s.categories.rows| <= category then Some(NotFound) else None
    case UpdatePrompt(category, id, patch, _) =>
      ChildError(s.prompts, category, id, OnlyActivePrompt(patch), patch.active)
    case AddRule(category, _) =>
      if |s.categories.rows| <= category then Some(NotFound) else None
    case UpdateRule(category, id, patch, _) =>
      ChildError(s.rules, category, id, OnlyActiveRule(patch), patch.active)
    case ImportBundle(_, _, _, _) =>
      if ImportComponents(s, op).None? || ImportPrompts(s, op).None? || ImportAttachments(s, op).None?
         || ImportSlots(s, op).None? || ImportRules(s, op).None? then Some(ServerError)
      else None
  }

  function MergeCategory(b: CategoryBody, p: CategoryPatch): CategoryBody {
    CategoryBody(Inherit(p.name, b.name), Inherit(p.slug, b.slug), Inherit(p.status, b.status),
                 Inherit(p.displayOrder, b.displayOrder))
  }

  function CategoryEdits(s: Store, op: Op): seq<Edit<CategoryBody, Option<Time>>> {
    if Refusal(s, op).Some? then []
    else
      match op
      case CreateCategory(name, slug, displayOrder, actor) =>
        [Insert(actor, CategoryBody(name, slug, "active", displayOrder), None)]
      case UpdateCategory(id, patch, at) =>
        [Supersede(id, MergeCategory(s.categories.rows[id].body, patch), at)]
      case DeactivateCategory(id, at) =>
        if s.categories.rows[id].body.status == "inactive" then []
        else [Supersede(id, s.categories.rows[id].body.(status := "inactive"), at)]
      case SoftDeleteCategory(id, _, at) =>
        if s.categories.rows[id].side.Some? then [] else [SetSide(id, Some(at))]
      case ImportBundle(payload, actor, _, _) =>
        if BySlug(s, payload.slug).Some? then []
        else [Insert(actor, CategoryBody(payload.name, payload.slug, payload.status, payload.displayOrder), None)]
      case _ => []
  }

  /** `active` alone is written in place; any other change supersedes, and may set the successor's `active`. */
  function VersionedUpdate<B>(
    t: Table<B, bool>, id: nat, onlyActive: bool, active: Field<bool>, body: B, at: Time): seq<Edit<B, bool>>
  {
    if onlyActive && active.Present? then [SetSide(id, active.value)]
    else [Supersede(id, body, at)] + if active.Present? then [SetSide(|t.rows|, active.value)] else []
  }

  function PromptEdits(s: Store, op: Op): seq<Edit<PromptBody, bool>> {
    if Refusal(s, op).Some? then []
    else
      match op
      case AddPrompt(category, prompt) => [Insert(category, prompt, true)]
      case UpdatePrompt(_, id, patch, at) =>
        VersionedUpdate(s.prompts, id, OnlyActivePrompt(patch), patch.active,
                        MergePrompt(s.prompts.rows[id].body, patch.title, patch.responseType, patch.required,
                                    patch.displayOrder), at)
      case ImportBundle(_, _, _, _) => ImportPrompts(s, op).value.edits
      case _ => []
  }

  function RuleEdits(s: Store, op: Op): seq<Edit<RuleBody, bool>> {
    if Refusal(s, op).Some? then []
    else
      match op
      case AddRule(category, rule) => [Insert(category, rule, true)]
      case UpdateRule(_, id, patch, at) =>
        VersionedUpdate(s.rules, id, OnlyActiveRule(patch), patch.active,
                        MergeRule(s.rules.rows[id].body, patch.title, patch.conditionField, patch.conditionOperator,
                                  patch.conditionValue, patch.actions), at)
      case ImportBundle(_, _, _, _) => ImportRules(s, op).value.edits
      case _ => []
  }

  function Step(s: Store, op: Op): Store {
    var imports := op.ImportBundle? && Refusal(s, op).None?;
    Store(
      Replay(s.categories, CategoryEdits(s, op)),
      if imports then ImportComponents(s, op).value.table else s.components,
      Replay(s.prompts, PromptEdits(s, op)),
      if imports then ImportAttachments(s, op).value.table else s.attachments,
      if imports then ImportSlots(s, op).value.table else s.slots,
      Replay(s.rules, RuleEdits(s, op)))
  }

  function Run(s: Store, ops: seq<Op>): Store {
    if ops == [] then s else Step(Run(s, ops[..|ops| - 1]), ops[|ops| - 1])
  }

  /** `CategoryImportResult`: what an import reports. */
  datatype ImportReport = ImportReport(
    category: nat, created: bool, supersededPrompts: seq<nat>, addedPrompts: seq<nat>, supersededRules: seq<nat>,
    addedRules: seq<nat>, addedComponents: seq<nat>, addedAttachments: seq<nat>, addedSlots: seq<nat>)

  function Report(s: Store, op: Op): ImportReport
    requires op.ImportBundle? && Refusal(s, op).None?
  {
    var p, r := ImportPrompts(s, op).value, ImportRules(s, op).value;
    ImportReport(Target(s, op.payload), BySlug(s, op.payload.slug).None?, p.superseded, p.added, r.superseded, r.added,
                 ImportComponents(s, op).value.added, ImportAttachments(s, op).value.added,
                 ImportSlots(s, op).value.added)
  }

  function ExportPayload(s: Store, category: nat): Payload
    requires category < |s.categories.rows|
  {
    var row := s.categories.rows[category];
    Payload(row.body.name, row.body.slug, row.body.status, row.body.displayOrder, row.version,
            Export(COMPONENTS, s.components, category, |s.components.rows|),
            Export(PROMPTS, s.prompts, category, |s.prompts.rows|),
            Export(ATTACHMENTS, s.attachments, category, |s.attachments.rows|),
            Export(SLOTS, s.slots, category, |s.slots.rows|),
            Export(RULES, s.rules, category, |s.rules.rows|))
  }

  /** The `{id: version}` snapshot a submission takes of the category's current prompts or rules. */
  function Snapshot<B, M>(t: Table<B, M>, category: nat): (m: map<nat, nat>)
    ensures forall id: nat :: id in m <==> id < |t.rows| && t.rows[id].owner == category && t.rows[id].Current()
    ensures forall id :: id in m ==> m[id] == t.rows[id].version
  {
    map id: nat | 0 <= id < |t.rows| && t.rows[id].owner == category && t.rows[id].Current() :: t.rows[id].version
  }
}
