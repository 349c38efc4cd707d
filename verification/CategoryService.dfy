/** The admin category service over its mutable tables; each method is one transaction. */
module CategoryService {
  import opened Common
  import opened Versioning
  import opened BundleImport
  import opened CategoryStore
  import opened CategoryTheorems

  class AdminCategories {
    var categories: Table<CategoryBody, Option<Time>>
    var components: Table<ComponentBody, bool>
    var prompts: Table<PromptBody, bool>
    var attachments: Table<AttachmentBody, bool>
    var slots: Table<SlotBody, bool>
    var rules: Table<RuleBody, bool>

    function Current(): Store
      reads this
    {
      Store(categories, components, prompts, attachments, slots, rules)
    }

    constructor ()
      ensures Current() == EMPTY_STORE
    {
      categories, components, prompts := Empty(), Empty(), Empty();
      attachments, slots, rules := Empty(), Empty(), Empty();
    }

    method CreateCategory(name: string, slug: string, displayOrder: int, actor: nat) returns (r: Result<nat>)
      modifies this
      ensures var op := Op.CreateCategory(name, slug, displayOrder, actor);
              && Current() == Step(old(Current()), op)
              && r == (match Refusal(old(Current()), op)
                       case Some(e) => Err(e)
                       case None => Ok(|old(categories).rows|))
    {
      ghost var s := Current();
      var existing := CurrentBySlug(categories, slug, |categories.rows|);
      if existing.Some? {
        return Err(Conflict);
      }
      r := Ok(|categories.rows|);
      var row := Edit<CategoryBody, Option<Time>>.Insert(actor, CategoryBody(name, slug, "active", displayOrder), None);
      OneEdit(categories, row);
      categories := Apply(categories, row);
    }

    method UpdateCategory(id: nat, patch: CategoryPatch, now: Time) returns (r: Result<nat>)
      modifies this
      ensures var op := Op.UpdateCategory(id, patch, now);
              && Current() == Step(old(Current()), op)
              && r == (match Refusal(old(Current()), op)
                       case Some(e) => Err(e)
                       case None => Ok(|old(categories).rows|))
    {
      if |categories.rows| <= id {
        return Err(NotFound);
      }
      var cat := categories.rows[id];
      if !cat.Current() || cat.side.Some? {
        return Err(Conflict);
      }
      if EmptyCategoryPatch(patch) {
        return Err(BadRequest);
      }
      if patch.slug.Present? && patch.slug.value != cat.body.slug {
        var clash := CurrentBySlug(categories, patch.slug.value, |categories.rows|);
        if clash.Some? && clash.value != id {
          return Err(Conflict);
        }
      }
      r := Ok(|categories.rows|);
      var edit := Edit<CategoryBody, Option<Time>>.Supersede(id, MergeCategory(cat.body, patch), now);
      OneEdit(categories, edit);
      categories := Apply(categories, edit);
    }

    method SoftDeleteCategory(id: nat, recordsInUse: nat, now: Time) returns (r: Result<nat>)
      modifies this
      ensures var op := Op.SoftDeleteCategory(id, recordsInUse, now);
              && Current() == Step(old(Current()), op)
              && r == (match Refusal(old(Current()), op) case Some(e) => Err(e) case None => Ok(id))
    {
      if |categories.rows| <= id {
        return Err(NotFound);
      }
      if categories.rows[id].side.Some? {
        return Ok(id);
      }
      if recordsInUse > 0 {
        return Err(Conflict);
      }
      var edit := Edit<CategoryBody, Option<Time>>.SetSide(id, Some(now));
      OneEdit(categories, edit);
      categories := Apply(categories, edit);
      r := Ok(id);
    }

    method UpdateInspectionPrompt(category: nat, id: nat, patch: PromptPatch, now: Time) returns (r: Result<nat>)
      modifies this
      ensures var op := UpdatePrompt(category, id, patch, now);
              && Current() == Step(old(Current()), op)
              && r == (match Refusal(old(Current()), op)
                       case Some(e) => Err(e)
                       case None => Ok(if OnlyActivePrompt(patch) then id else |old(prompts).rows|))
    {
      if |prompts.rows| <= id || prompts.rows[id].owner != category {
        return Err(NotFound);
      }
      var existing := prompts.rows[id];
      if !existing.Current() {
        return Err(Conflict);
      }
      if OnlyActivePrompt(patch) {
        if patch.active.Absent? {
          return Err(BadRequest);
        }
        if patch.active.Null? {
          return Err(ServerError);
        }
        OneEdit(prompts, SetSide(id, patch.active.value));
        prompts := Apply(prompts, SetSide(id, patch.active.value));
        return Ok(id);
      }
      var successor := |prompts.rows|;
      var body := MergePrompt(existing.body, patch.title, patch.responseType, patch.required, patch.displayOrder);
      ReplayUpdate(prompts, id, patch.active, body, now);
      prompts := Apply(prompts, Supersede(id, body, now));
      if patch.active.Present? {
        prompts := Apply(prompts, SetSide(successor, patch.active.value));
      }
      r := Ok(successor);
    }

    method UpdateRedFlagRule(category: nat, id: nat, patch: RulePatch, now: Time) returns (r: Result<nat>)
      modifies this
      ensures var op := UpdateRule(category, id, patch, now);
              && Current() == Step(old(Current()), op)
              && r == (match Refusal(old(Current()), op)
                       case Some(e) => Err(e)
                       case None => Ok(if OnlyActiveRule(patch) then id else |old(rules).rows|))
    {
      if |rules.rows| <= id || rules.rows[id].owner != category {
        return Err(NotFound);
      }
      var existing := rules.rows[id];
      if !existing.Current() {
        return Err(Conflict);
      }
      if OnlyActiveRule(patch) {
        if patch.active.Absent? {
          return Err(BadRequest);
        }
        if patch.active.Null? {
          return Err(ServerError);
        }
        OneEdit(rules, SetSide(id, patch.active.value));
        rules := Apply(rules, SetSide(id, patch.active.value));
        return Ok(id);
      }
      var successor := |rules.rows|;
      var body := MergeRule(existing.body, patch.title, patch.conditionField, patch.conditionOperator,
                            patch.conditionValue, patch.actions);
      ReplayUpdate(rules, id, patch.active, body, now);
      rules := Apply(rules, Supersede(id, body, now));
      if patch.active.Present? {
        rules := Apply(rules, SetSide(successor, patch.active.value));
      }
      r := Ok(successor);
    }

    method Rollback(saved: Store)
      modifies this
      ensures Current() == saved
    {
      categories, components, prompts := saved.categories, saved.components, saved.prompts;
      attachments, slots, rules := saved.attachments, saved.slots, saved.rules;
    }

    /** Each section writes its table as it goes; an error in a later section rolls the earlier ones back. */
    method ImportFromPayload(payload: Payload, actor: nat, clock: nat -> Time, ruleClock: nat -> Time)
      returns (r: Result<ImportReport>)
      modifies this
      ensures var op := ImportBundle(payload, actor, clock, ruleClock);
              && Current() == Step(old(Current()), op)
              && r == (match Refusal(old(Current()), op)
                       case Some(e) => Err(e)
                       case None => Ok(Report(old(Current()), op)))
    {
      ghost var s, op := Current(), ImportBundle(payload, actor, clock, ruleClock);
      var saved := Current();
      var category, created := TargetCategory(payload, actor);
      var done := ImportSections(category, payload, clock, ruleClock);
      if done.None? {
        ImportRefused(s, op);
        Rollback(saved);
        return Err(ServerError);
      }
      ImportAccepted(s, op);
      r := Ok(done.value.(category := category, created := created));
    }

    /** The current category for the slug, or a new one. */
    method TargetCategory(payload: Payload, actor: nat) returns (category: nat, created: bool)
      modifies this`categories
      ensures category == Target(old(Current()), payload) && created == BySlug(old(Current()), payload.slug).None?
      ensures categories == WithTarget(old(Current()), payload, actor)
    {
      var existing := CurrentBySlug(categories, payload.slug, |categories.rows|);
      category, created := |categories.rows|, existing.None?;
      if existing.None? {
        categories := Apply(categories, Insert(
          actor, CategoryBody(payload.name, payload.slug, payload.status, payload.displayOrder), None));
      } else {
        category := existing.value;
      }
    }

    /** The five sections in turn; nothing if one of them raises. */
    method ImportSections(category: nat, payload: Payload, clock: nat -> Time, ruleClock: nat -> Time)
      returns (r: Option<ImportReport>)
      modifies this
      ensures categories == old(categories)
      ensures var c := Import(COMPONENTS, category, old(components), payload.components, clock);
              var p := Import(PROMPTS, category, old(prompts), payload.prompts, clock);
              var a := Import(ATTACHMENTS, category, old(attachments), payload.attachments, clock);
              var l := Import(SLOTS, category, old(slots), payload.slots, clock);
              var u := Import(RULES, category, old(rules), payload.rules, ruleClock);
              if c.None? || p.None? || a.None? || l.None? || u.None? then r.None?
              else
                && components == c.value.table && prompts == p.value.table && attachments == a.value.table
                && slots == l.value.table && rules == u.value.table
                && r == Some(ImportReport(category, false, p.value.superseded, p.value.added, u.value.superseded,
                                          u.value.added, c.value.added, a.value.added, l.value.added))
    {
      var c := ImportItems(COMPONENTS, category, components, payload.components, clock);
      if c.None? {
        return None;
      }
      components := c.value.table;
      var p := ImportItems(PROMPTS, category, prompts, payload.prompts, clock);
      if p.None? {
        return None;
      }
      prompts := p.value.table;
      var a := ImportItems(ATTACHMENTS, category, attachments, payload.attachments, clock);
      if a.None? {
        return None;
      }
      attachments := a.value.table;
      var l := ImportItems(SLOTS, category, slots, payload.slots, clock);
      if l.None? {
        return None;
      }
      slots := l.value.table;
      var u := ImportItems(RULES, category, rules, payload.rules, ruleClock);
      if u.None? {
        return None;
      }
      rules := u.value.table;
      r := Some(ImportReport(category, false, p.value.superseded, p.value.added, u.value.superseded, u.value.added,
                             c.value.added, a.value.added, l.value.added));
    }

    /** The payload has the category's fields, and each section lists exactly the category's current rows, in order. */
    method ExportToPayload(category: nat) returns (r: Result<Payload>)
      ensures r.Ok? <==> category < |categories.rows|
      ensures r.Err? ==> r.error == NotFound
      ensures r.Ok? ==>
                var p, row := r.value, categories.rows[category];
                && p == ExportPayload(Current(), category)
                && CategoryBody(p.name, p.slug, p.status, p.displayOrder) == row.body && p.version == row.version
                && ListsRows(COMPONENTS, components, category, p.components)
                && ListsRows(PROMPTS, prompts, category, p.prompts)
                && ListsRows(ATTACHMENTS, attachments, category, p.attachments)
                && ListsRows(SLOTS, slots, category, p.slots)
                && ListsRows(RULES, rules, category, p.rules)
    {
      if |categories.rows| <= category {
        return Err(NotFound);
      }
      ExportListsRows(COMPONENTS, components, category, |components.rows|);
      ExportListsRows(PROMPTS, prompts, category, |prompts.rows|);
      ExportListsRows(ATTACHMENTS, attachments, category, |attachments.rows|);
      ExportListsRows(SLOTS, slots, category, |slots.rows|);
      ExportListsRows(RULES, rules, category, |rules.rows|);
      r := Ok(ExportPayload(Current(), category));
    }
  }

  lemma ReplayUpdate<B>(t: Table<B, bool>, id: nat, active: Field<bool>, body: B, at: Time)
    ensures var superseded := Apply(t, Edit<B, bool>.Supersede(id, body, at));
            Replay(t, VersionedUpdate(t, id, false, active, body, at)) ==
            if active.Present? then Apply(superseded, SetSide(|t.rows|, active.value)) else superseded
  {
    if active.Present? {
      TwoEdits(t, Supersede(id, body, at), SetSide(|t.rows|, active.value));
      assert VersionedUpdate(t, id, false, active, body, at)
          == [Supersede(id, body, at), SetSide(|t.rows|, active.value)];
    } else {
      OneEdit(t, Supersede(id, body, at));
      assert VersionedUpdate(t, id, false, active, body, at) == [Supersede(id, body, at)];
    }
  }
}
