/**
  Versioned rows: an edit stamps `replacedAt` on the row it replaces and inserts a successor, so that history stays
  readable. Row ids are positions in the table; rows are never removed.
 */
module Versioning {
  import opened Common

  /**
    A row. `owner` is the category of a prompt or rule, or the creator of a category; `side` is the part that is
    updated in place (`active`, or a category's `deleted_at`).
   */
  datatype Row<+B, +M> = Row(owner: nat, body: B, side: M, version: nat, replacedAt: Option<Time>)
  {
    predicate Current() {
      replacedAt.None?
    }
  }

  /** `prior[i]` is the row that row `i` was made to replace: a history variable, which no column stores. */
  datatype Table<+B, +M> = Table(rows: seq<Row<B, M>>, prior: seq<Option<nat>>)

  datatype Edit<+B, +M> =
    | Insert(owner: nat, body: B, side: M)
    | Supersede(id: nat, body: B, at: Time)
    | SetSide(id: nat, side: M)
    | Rewrite(id: nat, body: B)  // an update in place, for the tables that have no versions

  function Empty<B, M>(): Table<B, M> {
    Table([], [])
  }

  function Apply<B, M>(t: Table<B, M>, e: Edit<B, M>): Table<B, M> {
    match e
    case Insert(owner, body, side) =>
      Table(t.rows + [Row(owner, body, side, 1, None)], t.prior + [None])
    case Supersede(id, body, at) =>
      if |t.rows| <= id then t
      else
        var old_ := t.rows[id];
        Table(t.rows[id := old_.(replacedAt := Some(at))] + [Row(old_.owner, body, old_.side, old_.version + 1, None)],
              t.prior + [Some(id)])
    case SetSide(id, side) =>
      if |t.rows| <= id then t else t.(rows := t.rows[id := t.rows[id].(side := side)])
    case Rewrite(id, body) =>
      if |t.rows| <= id then t else t.(rows := t.rows[id := t.rows[id].(body := body)])
  }

  function Replay<B, M>(t: Table<B, M>, edits: seq<Edit<B, M>>): Table<B, M> {
    if edits == [] then t else Apply(Replay(t, edits[..|edits| - 1]), edits[|edits| - 1])
  }

  lemma {:induction false} ReplayAppend<B, M>(t: Table<B, M>, a: seq<Edit<B, M>>, b: seq<Edit<B, M>>)
    ensures Replay(t, a + b) == Replay(Replay(t, a), b)
  {
    if b == [] {
      assert a + b == a;
    } else {
      var n := |b| - 1;
      assert (a + b)[..|a + b| - 1] == a + b[..n];
      ReplayAppend(t, a, b[..n]);
    }
  }

  /** An edit as the edit services make it: they refuse to supersede a row twice, and never rewrite a body. */
  predicate Legal<B, M>(t: Table<B, M>, e: Edit<B, M>) {
    match e
    case Insert(_, _, _) => true
    case Supersede(id, _, _) => id < |t.rows| ==> t.rows[id].Current()
    case SetSide(id, _) => true
    case Rewrite(_, _) => false
  }

  predicate LegalRun<B, M>(t: Table<B, M>, edits: seq<Edit<B, M>>) {
    edits == [] ||
    (LegalRun(t, edits[..|edits| - 1]) && Legal(Replay(t, edits[..|edits| - 1]), edits[|edits| - 1]))
  }

  lemma {:induction false} LegalRunAppend<B, M>(t: Table<B, M>, a: seq<Edit<B, M>>, b: seq<Edit<B, M>>)
    ensures LegalRun(t, a + b) <==> LegalRun(t, a) && LegalRun(Replay(t, a), b)
  {
    if b == [] {
      assert a + b == a;
    } else {
      var n := |b| - 1;
      assert (a + b)[..|a + b| - 1] == a + b[..n];
      LegalRunAppend(t, a, b[..n]);
      ReplayAppend(t, a, b[..n]);
    }
  }

  // ------------------------------------------------------------------------------------------
  // Chains
  // ------------------------------------------------------------------------------------------

  /** Row `i` opens a chain at version 1, or continues the chain of the row it replaced. */
  ghost predicate Linked<B, M>(t: Table<B, M>, i: nat)
    requires i < |t.rows| == |t.prior|
  {
    match t.prior[i]
    case None => t.rows[i].version == 1
    case Some(p) => p < i && t.rows[i].version == t.rows[p].version + 1
                    && t.rows[i].owner == t.rows[p].owner && !t.rows[p].Current()
  }

  /** Row `j` is the successor of row `i`. */
  predicate Succeeds<B, M>(t: Table<B, M>, i: nat, j: nat) {
    j < |t.prior| && t.prior[j] == Some(i)
  }

  /** Rows form chains that never branch, and a row is stamped exactly when it has its one successor. */
  ghost predicate Chained<B, M>(t: Table<B, M>) {
    && |t.rows| == |t.prior|
    && (forall i :: 0 <= i < |t.rows| ==> Linked(t, i))
    && (forall i: nat, j, k :: Succeeds(t, i, j) && Succeeds(t, i, k) ==> j == k)
    && (forall i: nat :: i < |t.rows| && !t.rows[i].Current() ==> exists j :: Succeeds(t, i, j))
  }

  /**
    An edit of a chained table leaves it chained exactly when it is not a second replacement of the same row.
    (`Rewrite` is left aside: the versioned tables have no such edit.)
   */
  lemma {:induction false} EditKeepsChainedIff<B, M>(t: Table<B, M>, e: Edit<B, M>)
    requires Chained(t) && !e.Rewrite?
    ensures Chained(Apply(t, e)) <==> Legal(t, e)
  {
    var u := Apply(t, e);
    match e {
      case Insert(_, _, _) =>
        forall i: nat, j ensures Succeeds(u, i, j) <==> Succeeds(t, i, j) {}
        forall i: nat | i < |u.rows| ensures Linked(u, i) {
          if i < |t.rows| {
            assert Linked(t, i);
          }
        }
      case Supersede(id, _, _) => if id < |t.rows| {
        var n := |t.rows|;
        assert Succeeds(u, id, n);
        forall i: nat, j ensures Succeeds(u, i, j) <==> Succeeds(t, i, j) || (i == id && j == n) {}
        if t.rows[id].Current() {
          forall i: nat | i < |u.rows| ensures Linked(u, i) {
            if i < n {
              assert Linked(t, i);
            }
          }
          forall j: nat ensures !Succeeds(t, id, j) {
            if j < n {
              assert Linked(t, j);
            }
          }
          forall i: nat | i < |u.rows| && !u.rows[i].Current() ensures exists j :: Succeeds(u, i, j) {
            if i != id {
              var j :| Succeeds(t, i, j);
              assert Succeeds(u, i, j);
            }
          }
        } else {
          var j :| Succeeds(t, id, j);
          assert Succeeds(u, id, j) && j != n;
        }
      }
      case SetSide(id, _) =>
        forall i: nat, j ensures Succeeds(u, i, j) <==> Succeeds(t, i, j) {}
        forall i: nat | i < |u.rows| ensures Linked(u, i) {
          assert Linked(t, i);
        }
    }
  }

  lemma {:induction false} LegalRunsStayChained<B, M>(t: Table<B, M>, edits: seq<Edit<B, M>>)
    requires Chained(t) && LegalRun(t, edits)
    ensures Chained(Replay(t, edits))
  {
    if edits != [] {
      var n := |edits| - 1;
      LegalRunsStayChained(t, edits[..n]);
      EditKeepsChainedIff(Replay(t, edits[..n]), edits[n]);
    }
  }

  /** Some row has two successors. */
  ghost predicate Branched<B, M>(t: Table<B, M>) {
    exists i: nat, j: nat, k: nat :: Succeeds(t, i, j) && Succeeds(t, i, k) && j != k
  }

  /** A run of edits leaves a chained table chained exactly when every edit was legal; a branch never heals. */
  lemma {:induction false} ReplayStaysChainedIff<B, M>(t: Table<B, M>, edits: seq<Edit<B, M>>)
    requires Chained(t) && NoRewrites(edits)
    ensures Chained(Replay(t, edits)) <==> LegalRun(t, edits)
    ensures !LegalRun(t, edits) ==> Branched(Replay(t, edits))
  {
    if edits != [] {
      var n := |edits| - 1;
      ReplayStaysChainedIff(t, edits[..n]);
      var u, v := Replay(t, edits[..n]), Replay(t, edits);
      if !LegalRun(t, edits[..n]) {
        var i: nat, j: nat, k: nat :| Succeeds(u, i, j) && Succeeds(u, i, k) && j != k;
        assert Succeeds(v, i, j) && Succeeds(v, i, k);
      } else {
        EditKeepsChainedIff(u, edits[n]);
        if !Legal(u, edits[n]) {
          var j :| Succeeds(u, edits[n].id, j);
          assert Linked(u, j);
          assert Succeeds(v, edits[n].id, j) && Succeeds(v, edits[n].id, |u.rows|);
        }
      }
    }
  }

  /** The row that opened the chain of row `i`. */
  ghost function Root<B, M>(t: Table<B, M>, i: nat): (r: nat)
    requires Chained(t) && i < |t.rows|
    ensures r < |t.rows|
    decreases i
  {
    assert Linked(t, i);
    match t.prior[i]
    case None => i
    case Some(p) => Root(t, p)
  }

  /** A version number occurs at most once in a chain. */
  lemma {:induction false} VersionsAreUnique<B, M>(t: Table<B, M>, i: nat, j: nat)
    requires Chained(t) && i < |t.rows| && j < |t.rows|
    requires Root(t, i) == Root(t, j) && t.rows[i].version == t.rows[j].version
    ensures i == j
    decreases i
  {
    assert Linked(t, i) && Linked(t, j);
    VersionIsPositive(t, i);
    match (t.prior[i], t.prior[j]) {
      case (Some(p), Some(q)) =>
        VersionsAreUnique(t, p, q);
        assert Succeeds(t, p, i) && Succeeds(t, p, j);
      case (Some(p), None) => VersionIsPositive(t, p);
      case (None, Some(q)) => VersionIsPositive(t, q);
      case (None, None) =>
    }
  }

  lemma {:induction false} VersionIsPositive<B, M>(t: Table<B, M>, i: nat)
    requires Chained(t) && i < |t.rows|
    ensures t.rows[i].version >= 1
    decreases i
  {
    assert Linked(t, i);
    if t.prior[i].Some? {
      VersionIsPositive(t, t.prior[i].value);
    }
  }

  /** A chain runs through every version number below its latest without a gap. */
  lemma {:induction false} NoVersionIsSkipped<B, M>(t: Table<B, M>, i: nat, version: nat) returns (j: nat)
    requires Chained(t) && i < |t.rows| && 1 <= version <= t.rows[i].version
    ensures j <= i && Root(t, j) == Root(t, i) && t.rows[j].version == version
    ensures if version == t.rows[i].version then j == i else !t.rows[j].Current()
    decreases i
  {
    assert Linked(t, i);
    if version == t.rows[i].version {
      j := i;
    } else {
      j := NoVersionIsSkipped(t, t.prior[i].value, version);
    }
  }

  /** Of two rows of one chain, the one with the lower version has been replaced. */
  lemma {:induction false} OlderIsReplaced<B, M>(t: Table<B, M>, i: nat, j: nat)
    requires Chained(t) && i < |t.rows| && j < |t.rows|
    requires Root(t, i) == Root(t, j) && t.rows[i].version < t.rows[j].version
    ensures !t.rows[i].Current()
  {
    VersionIsPositive(t, i);
    var k := NoVersionIsSkipped(t, j, t.rows[i].version);
    VersionsAreUnique(t, i, k);
  }

  /** A chain has exactly one current row, and it carries the highest version. */
  lemma {:induction false} OneCurrentRowPerChain<B, M>(t: Table<B, M>, i: nat) returns (c: nat)
    requires Chained(t) && i < |t.rows|
    ensures c < |t.rows| && Root(t, c) == Root(t, i) && t.rows[c].Current()
    ensures forall j: nat :: j < |t.rows| && Root(t, j) == Root(t, i) && j != c ==>
              !t.rows[j].Current() && t.rows[j].version < t.rows[c].version
    decreases |t.rows| - i
  {
    if t.rows[i].Current() {
      c := i;
      forall j: nat | j < |t.rows| && Root(t, j) == Root(t, i) && j != c
        ensures !t.rows[j].Current() && t.rows[j].version < t.rows[c].version
      {
        if t.rows[j].version == t.rows[c].version {
          VersionsAreUnique(t, j, c);
        } else if t.rows[j].version < t.rows[c].version {
          OlderIsReplaced(t, j, c);
        } else {
          OlderIsReplaced(t, c, j);
        }
      }
    } else {
      var j :| Succeeds(t, i, j);
      assert Linked(t, j);
      c := OneCurrentRowPerChain(t, j);
    }
  }

  // ------------------------------------------------------------------------------------------
  // Reads at a point in time
  // ------------------------------------------------------------------------------------------

  /** `*_version_at`: the row, unless it had been replaced by `instant`. */
  function VersionAt<B, M>(t: Table<B, M>, id: nat, instant: Time): Option<Row<B, M>> {
    if id < |t.rows| && (t.rows[id].Current() || t.rows[id].replacedAt.value > instant) then Some(t.rows[id]) else None
  }

  /** The same row but for the side field and the stamp. */
  predicate SameContent<B(==), M>(a: Row<B, M>, b: Row<B, M>) {
    a.owner == b.owner && a.body == b.body && a.version == b.version
  }

  predicate NoRewrites<B, M>(edits: seq<Edit<B, M>>) {
    forall k :: 0 <= k < |edits| ==> !edits[k].Rewrite?
  }

  /** The stamp of the last replacement of row `id` among the edits. */
  function LastStamp<B, M>(edits: seq<Edit<B, M>>, id: nat): Option<Time> {
    if edits == [] then None
    else
      var e := edits[|edits| - 1];
      if e.Supersede? && e.id == id then Some(e.at) else LastStamp(edits[..|edits| - 1], id)
  }

  lemma {:induction false} ReplayKeepsShape<B, M>(t: Table<B, M>, edits: seq<Edit<B, M>>)
    requires |t.rows| == |t.prior|
    ensures |Replay(t, edits).rows| == |Replay(t, edits).prior|
  {
    if edits != [] {
      ReplayKeepsShape(t, edits[..|edits| - 1]);
    }
  }

  lemma {:induction false} LastStampAppend<B, M>(a: seq<Edit<B, M>>, b: seq<Edit<B, M>>, id: nat)
    ensures LastStamp(a + b, id) == if LastStamp(b, id).Some? then LastStamp(b, id) else LastStamp(a, id)
  {
    if b == [] {
      assert a + b == a;
    } else {
      assert (a + b)[..|a + b| - 1] == a + b[..|b| - 1];
      LastStampAppend(a, b[..|b| - 1], id);
    }
  }

  /** Of the rows in `t`, the edits replace only current ones (though maybe one of them more than once). */
  ghost predicate SupersedesCurrent<B, M>(t: Table<B, M>, edits: seq<Edit<B, M>>) {
    forall k :: 0 <= k < |edits| && edits[k].Supersede? && edits[k].id < |t.rows| ==> t.rows[edits[k].id].Current()
  }

  lemma {:induction false} ReplacedRowsAreLeft<B, M>(t: Table<B, M>, edits: seq<Edit<B, M>>, id: nat)
    requires SupersedesCurrent(t, edits) && id < |t.rows| && !t.rows[id].Current()
    ensures LastStamp(edits, id).None?
  {
    if edits != [] {
      var n := |edits| - 1;
      assert forall k :: 0 <= k < n ==> edits[..n][k] == edits[k];
      ReplacedRowsAreLeft(t, edits[..n], id);
    }
  }

  /** Rows keep their content and their place in the chains; only the stamp and the side field move. */
  lemma {:induction false} RowsAreFrozen<B, M>(t: Table<B, M>, edits: seq<Edit<B, M>>, id: nat)
    requires id < |t.rows| == |t.prior| && NoRewrites(edits)
    ensures var u := Replay(t, edits);
            && |t.rows| <= |u.rows| == |u.prior| && SameContent(u.rows[id], t.rows[id]) && u.prior[id] == t.prior[id]
            && u.rows[id].replacedAt ==
               (if LastStamp(edits, id).Some? then LastStamp(edits, id) else t.rows[id].replacedAt)
  {
    if edits != [] {
      RowsAreFrozen(t, edits[..|edits| - 1], id);
    }
  }

  /** In a legal run, a row that was already replaced keeps its stamp too. */
  lemma {:induction false} StampsAreFinal<B, M>(t: Table<B, M>, edits: seq<Edit<B, M>>, id: nat)
    requires id < |t.rows| == |t.prior| && LegalRun(t, edits) && !t.rows[id].Current()
    ensures LastStamp(edits, id).None?
  {
    if edits != [] {
      var n := |edits| - 1;
      StampsAreFinal(t, edits[..n], id);
      LegalRunRewritesNothing(t, edits);
      RowsAreFrozen(t, edits[..n], id);
    }
  }

  lemma {:induction false} LegalRunRewritesNothing<B, M>(t: Table<B, M>, edits: seq<Edit<B, M>>)
    requires LegalRun(t, edits)
    ensures NoRewrites(edits)
  {
    if edits != [] {
      LegalRunRewritesNothing(t, edits[..|edits| - 1]);
    }
  }

  /**
    A row that was current when it was read stays readable at that instant, with the same version and body, exactly
    as long as no edit replaces it with a stamp at or before the instant.
   */
  lemma {:induction false} AnchoredIff<B, M>(t: Table<B, M>, edits: seq<Edit<B, M>>, id: nat, instant: Time)
    requires id < |t.rows| == |t.prior| && t.rows[id].Current() && NoRewrites(edits)
    ensures var read := VersionAt(Replay(t, edits), id, instant);
            && (read.Some? <==> LastStamp(edits, id).None? || instant < LastStamp(edits, id).value)
            && (read.Some? ==> SameContent(read.value, t.rows[id]))
  {
    RowsAreFrozen(t, edits, id);
  }

  predicate StampedBy<B, M>(edits: seq<Edit<B, M>>, instant: Time) {
    forall k :: 0 <= k < |edits| && edits[k].Supersede? ==> edits[k].at <= instant
  }

  predicate StampedAfter<B, M>(edits: seq<Edit<B, M>>, instant: Time) {
    forall k :: 0 <= k < |edits| && edits[k].Supersede? ==> instant < edits[k].at
  }

  lemma {:induction false} LastStampIsAStamp<B, M>(edits: seq<Edit<B, M>>, id: nat)
    requires LastStamp(edits, id).Some?
    ensures exists k :: 0 <= k < |edits| && edits[k].Supersede? && edits[k].at == LastStamp(edits, id).value
  {
    var n := |edits| - 1;
    if !(edits[n].Supersede? && edits[n].id == id) {
      LastStampIsAStamp(edits[..n], id);
      var k :| 0 <= k < n && edits[..n][k].Supersede? && edits[..n][k].at == LastStamp(edits, id).value;
      assert edits[k] == edits[..n][k];
    }
  }

  /** Chains keep their roots as the table grows. */
  lemma {:induction false} RootsAreStable<B, M>(t: Table<B, M>, edits: seq<Edit<B, M>>, id: nat)
    requires id < |t.rows| && Chained(t) && Chained(Replay(t, edits)) && NoRewrites(edits)
    ensures id < |Replay(t, edits).rows| && Root(Replay(t, edits), id) == Root(t, id)
    decreases id
  {
    RowsAreFrozen(t, edits, id);
    assert Linked(t, id);
    if t.prior[id].Some? {
      RootsAreStable(t, edits, t.prior[id].value);
    }
  }

  /** A row added later to a chain that already existed outranks the row that was current then. */
  lemma {:induction false} LaterRowsOutrank<B, M>(t: Table<B, M>, edits: seq<Edit<B, M>>, c: nat, j: nat)
    requires Chained(t) && LegalRun(t, edits) && Chained(Replay(t, edits))
    requires c < |t.rows| && t.rows[c].Current()
    requires |t.rows| <= j < |Replay(t, edits).rows| && c < |Replay(t, edits).rows|
    requires Root(Replay(t, edits), j) == Root(Replay(t, edits), c)
    ensures Replay(t, edits).rows[c].version < Replay(t, edits).rows[j].version
    decreases j
  {
    var u := Replay(t, edits);
    assert Linked(u, j);
    LegalRunRewritesNothing(t, edits);
    RootsAreStable(t, edits, c);
    match u.prior[j] {
      case None =>
        assert false;
      case Some(p) =>
        if p < |t.rows| {
          RootsAreStable(t, edits, p);
          if !t.rows[p].Current() {
            var k :| Succeeds(t, p, k);
            RowsAreFrozen(t, edits, k);
            assert Succeeds(u, p, k) && Succeeds(u, p, j);
            assert false;
          }
          var only := OneCurrentRowPerChain(t, c);
          RowsAreFrozen(t, edits, c);
        } else {
          LaterRowsOutrank(t, edits, c, p);
        }
    }
  }

  /** Among the rows of `i`'s chain readable at `instant`, row `i` has the lowest version. */
  ghost predicate LowestReadable<B, M>(t: Table<B, M>, i: nat, instant: Time)
    requires Chained(t)
  {
    && i < |t.rows| && VersionAt(t, i, instant).Some?
    && forall j: nat :: j < |t.rows| && Root(t, j) == Root(t, i) && VersionAt(t, j, instant).Some? ==>
         t.rows[i].version <= t.rows[j].version
  }

  /**
    Point-in-time reads agree with replay: if the edits stamped at or before `instant` come before those stamped
    after it, then in a chain begun by the early edits the row with the lowest version readable at `instant` is the
    row that the early edits alone leave current.
   */
  lemma {:induction false} ReadsAtInstantRefineReplay<B, M>(
    t: Table<B, M>, early: seq<Edit<B, M>>, late: seq<Edit<B, M>>, instant: Time, i: nat, root: nat)
    requires Chained(t) && LegalRun(t, early + late)
    requires forall k :: 0 <= k < |t.rows| && !t.rows[k].Current() ==> t.rows[k].replacedAt.value <= instant
    requires StampedBy(early, instant) && StampedAfter(late, instant)
    requires root < |Replay(t, early).rows|
    ensures Chained(Replay(t, early)) && Chained(Replay(t, early + late))
    ensures var then_, now := Replay(t, early), Replay(t, early + late);
            (i < |now.rows| && Root(now, i) == root && LowestReadable(now, i, instant)) <==>
            (i < |then_.rows| && Root(then_, i) == root && then_.rows[i].Current())
  {
    LegalRunAppend(t, early, late);
    ReplayAppend(t, early, late);
    LegalRunsStayChained(t, early);
    var then_ := Replay(t, early);
    LegalRunsStayChained(then_, late);
    LegalRunRewritesNothing(t, early);
    LegalRunRewritesNothing(then_, late);
    var now := Replay(then_, late);
    if root < |then_.rows| && Root(then_, root) == root {
      var c := OneCurrentRowPerChain(then_, root);
      EarlyRowsReadableIff(t, early, late, instant, c);
      RootsAreStable(then_, late, c);
      forall j: nat | j < |now.rows| && Root(now, j) == root && VersionAt(now, j, instant).Some? && j != c
        ensures now.rows[c].version < now.rows[j].version
      {
        if j < |then_.rows| {
          EarlyRowsReadableIff(t, early, late, instant, j);
          RootsAreStable(then_, late, j);
          assert false;
        } else {
          LaterRowsOutrank(then_, late, c, j);
        }
      }
      assert LowestReadable(now, c, instant);
    } else {
      RootsAreStable(then_, late, root);
      if i < |now.rows| && Root(now, i) == root {
        RootIsARoot(now, i);
        assert false;
      }
      if i < |then_.rows| && Root(then_, i) == root {
        RootIsARoot(then_, i);
        assert false;
      }
    }
  }

  lemma {:induction false} RootIsARoot<B, M>(t: Table<B, M>, i: nat)
    requires Chained(t) && i < |t.rows|
    ensures Root(t, Root(t, i)) == Root(t, i)
    decreases i
  {
    assert Linked(t, i);
    if t.prior[i].Some? {
      RootIsARoot(t, t.prior[i].value);
    }
  }

  lemma EarlyRowsReadableIff<B, M>(
    t: Table<B, M>, early: seq<Edit<B, M>>, late: seq<Edit<B, M>>, instant: Time, i: nat)
    requires Chained(t) && LegalRun(t, early) && LegalRun(Replay(t, early), late)
    requires forall k :: 0 <= k < |t.rows| && !t.rows[k].Current() ==> t.rows[k].replacedAt.value <= instant
    requires StampedBy(early, instant) && StampedAfter(late, instant)
    requires i < |Replay(t, early).rows|
    ensures i < |Replay(Replay(t, early), late).rows|
    ensures VersionAt(Replay(Replay(t, early), late), i, instant).Some? <==> Replay(t, early).rows[i].Current()
  {
    var then_ := Replay(t, early);
    LegalRunsStayChained(t, early);
    LegalRunRewritesNothing(then_, late);
    RowsAreFrozen(then_, late, i);
    if then_.rows[i].Current() {
      if LastStamp(late, i).Some? {
        LastStampIsAStamp(late, i);
      }
    } else {
      StampsAreFinal(then_, late, i);
      StampsComeFromEdits(t, early, i);
    }
  }

  /** A stamp on a row was there before the edits or was put there by one of them. */
  lemma {:induction false} StampsComeFromEdits<B, M>(t: Table<B, M>, edits: seq<Edit<B, M>>, i: nat)
    requires i < |Replay(t, edits).rows| && !Replay(t, edits).rows[i].Current()
    ensures var stamp := Replay(t, edits).rows[i].replacedAt;
            || (i < |t.rows| && t.rows[i].replacedAt == stamp)
            || exists k :: 0 <= k < |edits| && edits[k].Supersede? && Some(edits[k].at) == stamp
  {
    if edits != [] {
      var n := |edits| - 1;
      var before := Replay(t, edits[..n]);
      if i < |before.rows| && before.rows[i].replacedAt == Replay(t, edits).rows[i].replacedAt {
        StampsComeFromEdits(t, edits[..n], i);
        if !(i < |t.rows| && t.rows[i].replacedAt == before.rows[i].replacedAt) {
          var k :| 0 <= k < n && edits[..n][k].Supersede? && Some(edits[..n][k].at) == before.rows[i].replacedAt;
          assert edits[k] == edits[..n][k];
        }
      } else {
        assert edits[n].Supersede?;
      }
    }
  }

  /** Reading row `i` of `now` at `instant` returns it exactly if it was current then, with its version and body. */
  ghost predicate ReadsRight<B, M>(then_: Table<B, M>, now: Table<B, M>, i: nat, instant: Time) {
    var read := VersionAt(now, i, instant);
    && (read.Some? <==> i < |then_.rows| && then_.rows[i].Current())
    && (read.Some? ==> SameContent(read.value, then_.rows[i]))
  }

  /** A row that existed is read right, if later edits carry later stamps and leave replaced rows alone. */
  lemma OldRowsReadRight<B, M>(then_: Table<B, M>, late: seq<Edit<B, M>>, i: nat, instant: Time)
    requires i < |then_.rows| == |then_.prior| && NoRewrites(late) && StampedAfter(late, instant)
    requires !then_.rows[i].Current() ==>
               then_.rows[i].replacedAt.value <= instant && LastStamp(late, i).None?
    ensures ReadsRight(then_, Replay(then_, late), i, instant)
  {
    RowsAreFrozen(then_, late, i);
    if LastStamp(late, i).Some? {
      LastStampIsAStamp(late, i);
    }
  }

  /** A row that was made later is read all the same. */
  lemma NewRowsReadWrong<B, M>(then_: Table<B, M>, late: seq<Edit<B, M>>, i: nat, instant: Time)
    requires |then_.rows| <= i < |Replay(then_, late).rows| && StampedAfter(late, instant)
    ensures VersionAt(Replay(then_, late), i, instant).Some?
  {
    if !Replay(then_, late).rows[i].Current() {
      StampsComeFromEdits(then_, late, i);
    }
  }
}
