/** The query building of the server's database handler: `makeFilterQuery`
    turns the viewer's event filter into the `WHERE` clause and its
    parameters, the event list request adds the sort order and the paging
    placeholders, the point-source request picks its tag condition from the
    event's processing state, and the platform request groups its rows by
    platform. The database and the messaging are left out. */
module DataBaseHandler {
  import opened Wrappers
  import opened Text
  import opened EventTypes

  /** A query: the text that follows `FROM`, and its parameters. */
  type Query = (string, seq<real>)

  const EventsTable: string := " starfall_db_schema.events "

  /** `DEFAULT_QUERY`: every event, no parameter. */
  const DefaultQuery: Query := (EventsTable, [])

  const WhereHead: string := " starfall_db_schema.events WHERE "

  // ---------------------------------------------------------------------
  // makeFilterQuery

  /** The numbers of the states whose flag is set. `R.keys` lists the
      integer keys of an object first and in ascending order, and the
      `enabled` key is dropped. */
  function StateFilters(flags: seq<bool>): (r: seq<nat>)
    ensures forall k: nat :: k in r <==> k < |flags| && flags[k]
    ensures forall i, j :: 0 <= i < j < |r| ==> r[i] < r[j]
    ensures forall i :: 0 <= i < |r| ==> r[i] < |flags|
  {
    if flags == [] then []
    else
      var n := |flags| - 1;
      var p := StateFilters(flags[..n]);
      assert forall k :: k in p ==> k < n;
      p + (if flags[n] then [n] else [])
  }

  /** The four kinds of clause, in the order they are tried. */
  datatype Kind = Energy | Date | States(ids: seq<nat>) | Unviewed

  /** A clause with the parameters it contributes. */
  datatype Part = Part(kind: Kind, params: seq<real>)

  /** A clause and whether it applies: the rows of `queries` before the
      `filter(x => x[2])`. */
  datatype Candidate = Candidate(part: Part, enabled: bool)

  function Rank(k: Kind): nat {
    match k
    case Energy => 0
    case Date => 1
    case States(_) => 2
    case Unviewed => 3
  }

  /** The four candidate clauses of a filter: energy, date, state and
      unviewed. The state clause applies only when it is enabled and some
      state flag is set. */
  function Candidates(f: EventFilter): (r: seq<Candidate>)
    ensures |r| == 4 && forall j :: 0 <= j < 4 ==> Rank(r[j].part.kind) == j
  {
    var ids := StateFilters(f.stateFilter.flags);
    [Candidate(Part(Energy, [f.approxEnergyJ.gte, f.approxEnergyJ.lte]), f.approxEnergyJ.enabled),
     Candidate(Part(Date, [f.approxTriggerTime.gte, f.approxTriggerTime.lte]), f.approxTriggerTime.enabled),
     Candidate(Part(States(ids), []), f.stateFilter.enabled && |ids| > 0),
     Candidate(Part(Unviewed, []), f.unviewed)]
  }

  /** The candidates that apply, in order. */
  function Enabled(cs: seq<Candidate>): (r: seq<Part>)
    ensures |r| <= |cs|
  {
    if cs == [] then []
    else Enabled(cs[..|cs| - 1]) + (if cs[|cs| - 1].enabled then [cs[|cs| - 1].part] else [])
  }

  /** The clauses that apply to a filter. */
  function Parts(f: EventFilter): seq<Part> {
    Enabled(Candidates(f))
  }

  /** Some clause of the list is of the rank. */
  ghost predicate HasRank(parts: seq<Part>, rank: nat) {
    exists i :: 0 <= i < |parts| && Rank(parts[i].kind) == rank
  }

  /** A clause of a given rank applies exactly when its candidate is
      enabled. */
  lemma {:induction false} EnabledRanks(cs: seq<Candidate>, rank: nat)
    ensures HasRank(Enabled(cs), rank) <==> exists j :: 0 <= j < |cs| && cs[j].enabled && Rank(cs[j].part.kind) == rank
    decreases |cs|
  {
    if cs != [] {
      var n := |cs| - 1;
      var p := Enabled(cs[..n]);
      EnabledRanks(cs[..n], rank);
      var r := Enabled(cs);
      if HasRank(p, rank) {
        var i :| 0 <= i < |p| && Rank(p[i].kind) == rank;
        assert r[i] == p[i];
      }
      if exists j :: 0 <= j < n && cs[..n][j].enabled && Rank(cs[..n][j].part.kind) == rank {
        var j :| 0 <= j < n && cs[..n][j].enabled && Rank(cs[..n][j].part.kind) == rank;
        assert cs[j] == cs[..n][j];
      }
      if exists j :: 0 <= j < |cs| && cs[j].enabled && Rank(cs[j].part.kind) == rank {
        var j :| 0 <= j < |cs| && cs[j].enabled && Rank(cs[j].part.kind) == rank;
        if j < n {
          assert cs[..n][j] == cs[j];
        } else {
          assert r[|r| - 1] == cs[n].part;
        }
      }
      if HasRank(r, rank) {
        var i :| 0 <= i < |r| && Rank(r[i].kind) == rank;
        if i < |p| {
          assert p[i] == r[i];
        }
      }
    }
  }

  /** Which clauses apply: energy, date, state and unviewed each when
      enabled, the state clause only with some state flag set. */
  lemma PartsEnabled(f: EventFilter)
    ensures HasRank(Parts(f), 0) <==> f.approxEnergyJ.enabled
    ensures HasRank(Parts(f), 1) <==> f.approxTriggerTime.enabled
    ensures HasRank(Parts(f), 2) <==>
      f.stateFilter.enabled && exists k :: 0 <= k < |f.stateFilter.flags| && f.stateFilter.flags[k]
    ensures HasRank(Parts(f), 3) <==> f.unviewed
  {
    var cs := Candidates(f);
    CandidateRank(cs, 0);
    CandidateRank(cs, 1);
    CandidateRank(cs, 2);
    CandidateRank(cs, 3);
    var ids := StateFilters(f.stateFilter.flags);
    if exists k :: 0 <= k < |f.stateFilter.flags| && f.stateFilter.flags[k] {
      var k :| 0 <= k < |f.stateFilter.flags| && f.stateFilter.flags[k];
      assert k in ids;
    }
    if |ids| > 0 {
      assert ids[0] in ids;
    }
  }

  /** With the candidate of rank `j` at index `j`, the clause of a rank
      applies exactly when that candidate is enabled. */
  lemma CandidateRank(cs: seq<Candidate>, rank: nat)
    requires rank < |cs| && forall j :: 0 <= j < |cs| ==> Rank(cs[j].part.kind) == j
    ensures HasRank(Enabled(cs), rank) <==> cs[rank].enabled
  {
    EnabledRanks(cs, rank);
  }

  /** The applying candidates keep their order. */
  lemma {:induction false} EnabledOrdered(cs: seq<Candidate>)
    requires forall i, j :: 0 <= i < j < |cs| ==> Rank(cs[i].part.kind) < Rank(cs[j].part.kind)
    ensures forall i, j :: 0 <= i < j < |Enabled(cs)| ==> Rank(Enabled(cs)[i].kind) < Rank(Enabled(cs)[j].kind)
    decreases |cs|
  {
    if cs != [] {
      var n := |cs| - 1;
      var p := Enabled(cs[..n]);
      EnabledOrdered(cs[..n]);
      EnabledMembers(cs[..n]);
      var r := Enabled(cs);
      assert forall i :: 0 <= i < |p| ==> r[i] == p[i];
      forall i | 0 <= i < |p| ensures Rank(p[i].kind) < Rank(cs[n].part.kind) {
        assert IsCandidate(cs[..n], p[i]);
        var j :| 0 <= j < n && cs[..n][j].part == p[i];
        assert cs[..n][j] == cs[j];
      }
      forall i, j | 0 <= i < j < |r| ensures Rank(r[i].kind) < Rank(r[j].kind) {
        if j < |p| {
          assert r[i] == p[i] && r[j] == p[j];
        } else {
          assert r[i] == p[i] && r[j] == cs[n].part;
          assert Rank(p[i].kind) < Rank(cs[n].part.kind);
        }
      }
    }
  }

  /** The part is one of the candidates'. */
  ghost predicate IsCandidate(cs: seq<Candidate>, p: Part) {
    exists j :: 0 <= j < |cs| && cs[j].part == p
  }

  /** Every clause that applies is one of the candidates. */
  lemma {:induction false} EnabledMembers(cs: seq<Candidate>)
    ensures forall i :: 0 <= i < |Enabled(cs)| ==> IsCandidate(cs, Enabled(cs)[i])
    decreases |cs|
  {
    if cs != [] {
      var n := |cs| - 1;
      var p := Enabled(cs[..n]);
      EnabledMembers(cs[..n]);
      var r := Enabled(cs);
      forall i | 0 <= i < |r| ensures IsCandidate(cs, r[i]) {
        if i < |p| {
          assert IsCandidate(cs[..n], p[i]);
          var j :| 0 <= j < n && cs[..n][j].part == p[i];
          assert r[i] == p[i] && cs[..n][j] == cs[j];
        } else {
          assert r[i] == cs[n].part;
        }
      }
    }
  }

  /** The clauses follow the fixed order energy, date, state, unviewed. */
  lemma PartsOrdered(f: EventFilter)
    ensures forall i, j :: 0 <= i < j < |Parts(f)| ==> Rank(Parts(f)[i].kind) < Rank(Parts(f)[j].kind)
  {
    assert Parts(f) == Enabled(Candidates(f));
    EnabledOrdered(Candidates(f));
  }

  /** A clause built from the filter: its parameters are its own bounds,
      and a state clause tests the states whose flag is set. */
  predicate PartOf(f: EventFilter, p: Part) {
    match p.kind
    case Energy => p.params == [f.approxEnergyJ.gte, f.approxEnergyJ.lte]
    case Date => p.params == [f.approxTriggerTime.gte, f.approxTriggerTime.lte]
    case States(ids) => p.params == [] && ids == StateFilters(f.stateFilter.flags)
    case Unviewed => p.params == []
  }

  /** Every clause that applies is one of the filter's. */
  lemma PartsOfFilter(f: EventFilter)
    ensures forall i :: 0 <= i < |Parts(f)| ==> PartOf(f, Parts(f)[i])
  {
    var cs := Candidates(f);
    EnabledMembers(cs);
    forall i | 0 <= i < |Parts(f)| ensures PartOf(f, Parts(f)[i]) {
      assert IsCandidate(cs, Parts(f)[i]);
      var j :| 0 <= j < |cs| && cs[j].part == Parts(f)[i];
    }
  }

  /** The parameters of the clauses, one clause after the other. */
  function Flatten(parts: seq<Part>): seq<real> {
    if parts == [] then [] else Flatten(parts[..|parts| - 1]) + parts[|parts| - 1].params
  }

  lemma {:induction false} FlattenConcat(a: seq<Part>, b: seq<Part>)
    ensures Flatten(a + b) == Flatten(a) + Flatten(b)
    decreases |b|
  {
    if b == [] {
      assert a + b == a;
    } else {
      var n := |b| - 1;
      FlattenConcat(a, b[..n]);
      assert (a + b)[..|a + b| - 1] == a + b[..n];
      assert (a + b)[|a + b| - 1] == b[n];
      var fa, fb, last := Flatten(a), Flatten(b[..n]), b[n].params;
      assert Flatten(a + b) == fa + fb + last;
      assert Flatten(b) == fb + last;
      assert fa + fb + last == fa + (fb + last);
    }
  }

  lemma {:induction false} FlattenPairs(parts: seq<Part>)
    requires forall i :: 0 <= i < |parts| ==> |parts[i].params| == 2
    ensures |Flatten(parts)| == 2 * |parts|
    decreases |parts|
  {
    if parts != [] {
      FlattenPairs(parts[..|parts| - 1]);
    }
  }

  /** When the clauses with two parameters come first, the parameters of
      the `index`-th of them are at `2 * index` and `2 * index + 1`. */
  lemma FlattenAt(parts: seq<Part>, index: nat)
    requires index < |parts| && |parts[index].params| == 2
    requires forall i :: 0 <= i < index ==> |parts[i].params| == 2
    ensures 2 * index + 2 <= |Flatten(parts)|
    ensures Flatten(parts)[2 * index] == parts[index].params[0]
    ensures Flatten(parts)[2 * index + 1] == parts[index].params[1]
  {
    var pre, rest := parts[..index], parts[index + 1..];
    assert parts == pre + [parts[index]] + rest;
    FlattenConcat(pre + [parts[index]], rest);
    FlattenConcat(pre, [parts[index]]);
    assert Flatten([parts[index]]) == parts[index].params by {
      assert [parts[index]][..0] == [];
    }
    FlattenPairs(pre);
  }

  /** Every placeholder of a range clause names its own bound: the
      `index`-th clause's `$(2 * index + 1)` is the `gte` and
      `$(2 * index + 2)` the `lte` of that clause's filter. The range
      clauses come first, so their placeholders and the parameters agree. */
  lemma PlaceholdersMatchBounds(f: EventFilter, index: nat)
    requires index < |Parts(f)| && Parts(f)[index].kind in {Energy, Date}
    ensures var params := Flatten(Parts(f));
      var bound := if Parts(f)[index].kind == Energy then f.approxEnergyJ else f.approxTriggerTime;
      2 * index + 2 <= |params| && params[2 * index] == bound.gte && params[2 * index + 1] == bound.lte
  {
    var parts := Parts(f);
    PartsOrdered(f);
    PartsOfFilter(f);
    assert PartOf(f, parts[index]);
    forall i | 0 <= i < index ensures |parts[i].params| == 2 {
      assert Rank(parts[i].kind) < Rank(parts[index].kind) <= 1;
      assert PartOf(f, parts[i]);
    }
    FlattenAt(parts, index);
  }

  const Schema: string := "starfall_db_schema"

  /** `starfall_db_schema.events.` followed by a column. */
  function EventsColumn(name: string): (r: string)
    ensures r != [] && r[0] == 's'
  {
    Schema + ".events." + name
  }

  /** `column >= $a AND column <= $b`. */
  function Between(column: string, a: nat, b: nat): (r: string)
    ensures r != [] && r[0] == column[0] && IsDigit(r[|r| - 1])
    requires column != []
  {
    var t := NatToString(b);
    var r := column + " >= $" + NatToString(a) + " AND " + column + " <= $" + t;
    assert r == (column + " >= $" + NatToString(a) + " AND " + column + " <= $") + t;
    r
  }

  /** One state's test, with the blanks around it. */
  function StateTest(x: nat): string {
    " " + EventsColumn("processing_state") + " = '" + NatToString(x) + "' "
  }

  /** The tests of the states, joined with `OR` by `R.intersperse` and
      `R.join('')`. */
  function StateTests(ids: seq<nat>): (r: seq<string>)
    ensures |r| == |ids|
  {
    seq(|ids|, i requires 0 <= i < |ids| => StateTest(ids[i]))
  }

  /** The state clause: the tests of the states joined with `OR`, in
      brackets. */
  function StatesClause(ids: seq<nat>): (r: string)
    ensures r != [] && r[0] == '(' && r[|r| - 1] == ')'
  {
    "( " + Join(StateTests(ids), " OR ") + " )"
  }

  /** The unviewed clause. */
  function UnviewedClause(): (r: string)
    ensures r != [] && r[0] == 's' && r[|r| - 1] == 'e'
  {
    var r := EventsColumn("user_viewed = false");
    assert r[|r| - 1] == 'e';
    r
  }

  /** The clause of a part with the placeholders `$a` and `$b`, as it is
      left once trimmed; a clause function ignores placeholders it does
      not use. */
  function Core(k: Kind, a: nat, b: nat): (r: string)
    ensures r != [] && !IsJsWhitespace(r[0]) && !IsJsWhitespace(r[|r| - 1])
  {
    match k
    case Energy => Between(EventsColumn("approx_energy_j"), a, b)
    case Date => Between(EventsColumn("approx_trigger_time"), a, b)
    case States(ids) => StatesClause(ids)
    case Unviewed => UnviewedClause()
  }

  /** What the clause function of a part returns for its placeholder
      numbers: the trimmed clause with a blank on either side. */
  function ClauseText(k: Kind, a: nat, b: nat): string {
    " " + Core(k, a, b) + " "
  }

  /** The text a clause function gives each part, the `index`-th part
      given the placeholders `2 * index + 1` and `2 * index + 2`. */
  function Numbered(parts: seq<Part>, clause: (Kind, nat, nat) -> string): (r: seq<string>)
    ensures |r| == |parts|
    ensures forall i :: 0 <= i < |parts| ==> r[i] == clause(parts[i].kind, 2 * i + 1, 2 * i + 2)
  {
    if parts == [] then []
    else
      var n := |parts| - 1;
      Numbered(parts[..n], clause) + [clause(parts[n].kind, 2 * n + 1, 2 * n + 2)]
  }

  /** Clause functions that agree give the same texts. */
  lemma {:induction false} NumberedAgree(parts: seq<Part>, f: (Kind, nat, nat) -> string, g: (Kind, nat, nat) -> string)
    requires forall k, a, b :: f(k, a, b) == g(k, a, b)
    ensures Numbered(parts, f) == Numbered(parts, g)
    decreases |parts|
  {
    if parts != [] {
      NumberedAgree(parts[..|parts| - 1], f, g);
    }
  }

  /** A clause text trimmed. */
  function TrimmedText(k: Kind, a: nat, b: nat): string {
    Trim(ClauseText(k, a, b))
  }

  /** `R.map(R.trim)` over the clause texts. */
  function Trimmed(parts: seq<Part>): (r: seq<string>)
    ensures |r| == |parts|
  {
    Numbered(parts, TrimmedText)
  }

  /** `R.filter(R.identity)` on strings: the empty ones dropped. */
  function NonEmpty(xs: seq<string>): (r: seq<string>)
    ensures |r| <= |xs|
  {
    if xs == [] then []
    else NonEmpty(xs[..|xs| - 1]) + (if xs[|xs| - 1] == [] then [] else [xs[|xs| - 1]])
  }

  /** `makeFilterQuery`. */
  function MakeFilterQuery(f: EventFilter): Query {
    var parts := Parts(f);
    if |parts| > 0 then (WhereHead + Join(NonEmpty(Trimmed(parts)), " AND "), Flatten(parts))
    else DefaultQuery
  }

  /** Trimming a text with one blank on either side gives the text back
      when it starts and ends with something else. */
  lemma TrimPadded(core: string)
    requires core != [] && !IsJsWhitespace(core[0]) && !IsJsWhitespace(core[|core| - 1])
    ensures Trim(" " + core + " ") == core
  {
    var s := " " + core + " ";
    assert s[1..] == core + " ";
    assert TrimStart(core + " ") == core + " ";
    assert TrimStart(s) == core + " ";
    assert (core + " ")[..|core|] == core;
    assert TrimEnd(core) == core;
  }

  lemma {:induction false} NonEmptyKeeps(xs: seq<string>)
    requires forall i :: 0 <= i < |xs| ==> xs[i] != []
    ensures NonEmpty(xs) == xs
    decreases |xs|
  {
    if xs != [] {
      NonEmptyKeeps(xs[..|xs| - 1]);
    }
  }

  /** The clauses of the query, trimmed: the `index`-th one holds the
      placeholders `$(2 * index + 1)` and `$(2 * index + 2)`. */
  function Clauses(parts: seq<Part>): (r: seq<string>)
    ensures |r| == |parts|
    ensures forall i :: 0 <= i < |r| ==> r[i] != []
  {
    Numbered(parts, Core)
  }

  /** Trimming each clause and dropping the empty ones leaves the clauses
      without their blanks. */
  lemma {:induction false} TrimmedClauses(parts: seq<Part>)
    ensures NonEmpty(Trimmed(parts)) == Clauses(parts)
  {
    TrimmedIsClauses(parts);
    NonEmptyKeeps(Clauses(parts));
  }

  lemma TrimmedIsClauses(parts: seq<Part>)
    ensures Trimmed(parts) == Clauses(parts)
  {
    forall k, a, b ensures TrimmedText(k, a, b) == Core(k, a, b) {
      TrimmedClause(k, a, b);
    }
    NumberedAgree(parts, TrimmedText, Core);
  }

  lemma TrimmedClause(k: Kind, a: nat, b: nat)
    ensures Trim(ClauseText(k, a, b)) == Core(k, a, b)
  {
    TrimPadded(Core(k, a, b));
  }

  /** With some clause enabled, the query is the clauses, in the fixed
      order, joined with `AND` after `WHERE`, and the parameters are the
      clauses' own. */
  lemma FilterQueryText(f: EventFilter)
    requires |Parts(f)| > 0
    ensures MakeFilterQuery(f) == (WhereHead + Join(Clauses(Parts(f)), " AND "), Flatten(Parts(f)))
  {
    TrimmedClauses(Parts(f));
  }

  /** With nothing enabled the query is `DEFAULT_QUERY`; with something
      enabled it is not. */
  lemma FilterQueryDefault(f: EventFilter)
    ensures MakeFilterQuery(f) == DefaultQuery <==>
      !f.approxEnergyJ.enabled && !f.approxTriggerTime.enabled && !f.unviewed &&
      !(f.stateFilter.enabled && exists k :: 0 <= k < |f.stateFilter.flags| && f.stateFilter.flags[k])
  {
    PartsEnabled(f);
    var parts := Parts(f);
    if |parts| > 0 {
      assert HasRank(parts, Rank(parts[0].kind));
      var q := MakeFilterQuery(f);
      assert |q.0| >= |WhereHead| > |EventsTable|;
    } else {
      assert forall rank :: !HasRank(parts, rank);
    }
  }

  /** The default filter selects every event. */
  lemma DefaultFilterQuery()
    ensures MakeFilterQuery(DefaultFilter) == DefaultQuery
  {
    FilterQueryDefault(DefaultFilter);
  }

  // ---------------------------------------------------------------------
  // The event list request

  datatype PageSort = DateAsc | DateDesc | StateAsc | StateDesc | EnergyAsc | EnergyDesc

  /** `pageSortQuery`. */
  function PageSortQuery(s: PageSort): string {
    match s
    case DateAsc => " ORDER BY approx_trigger_time ASC "
    case DateDesc => " ORDER BY approx_trigger_time DESC "
    case StateAsc => " ORDER BY processing_state ASC "
    case StateDesc => " ORDER BY processing_state DESC "
    case EnergyAsc => " ORDER BY approx_energy_j ASC NULLS LAST "
    case EnergyDesc => " ORDER BY approx_energy_j DESC NULLS LAST "
  }

  /** `pagingQuery(a, b)`. */
  function PagingQuery(a: nat, b: nat): string {
    " LIMIT $" + NatToString(a) + " OFFSET $" + NatToString(b) + " "
  }

  datatype Page = Page(pageNumber: int, pageSize: int, orderBy: Option<PageSort>, eventFilter: Option<EventFilter>)

  /** The filter query of a page request: `DEFAULT_QUERY` without a
      filter. */
  function PageFilterQuery(page: Page): Query {
    if page.eventFilter.Some? then MakeFilterQuery(page.eventFilter.value) else DefaultQuery
  }

  /** The event list query for the filter query `q`: the sort order, then
      the paging placeholders after the filter's, and the parameters with
      the page size and the offset after the filter's. */
  function PagedQuery(q: Query, page: Page): Query {
    var n := |q.1|;
    ("SELECT * FROM " + q.0 + (if page.orderBy.Some? then PageSortQuery(page.orderBy.value) else "") + PagingQuery(1 + n, 2 + n),
     q.1 + [page.pageSize as real, (page.pageNumber * page.pageSize) as real])
  }

  /** The query of the event list request. */
  function EventListQuery(page: Page): Query {
    PagedQuery(PageFilterQuery(page), page)
  }

  /** The paging placeholders follow the filter's: with `n` filter
      parameters, `LIMIT $(n + 1)` is the page size and `OFFSET $(n + 2)`
      the number of events on the earlier pages, and the filter's
      parameters keep their numbers. */
  lemma PagingPlaceholders(q: Query, page: Page)
    ensures var n := |q.1|;
      var r := PagedQuery(q, page);
      |r.1| == n + 2 && r.1[..n] == q.1 &&
      r.1[n] == page.pageSize as real && r.1[n + 1] == (page.pageNumber * page.pageSize) as real &&
      var tail := PagingQuery(n + 1, n + 2);
      |r.0| >= |tail| && r.0[|r.0| - |tail|..] == tail
  {
    var pre := "SELECT * FROM " + q.0 + (if page.orderBy.Some? then PageSortQuery(page.orderBy.value) else "");
    var tail := PagingQuery(|q.1| + 1, |q.1| + 2);
    assert PagedQuery(q, page).0 == pre + tail;
    assert (pre + tail)[|pre|..] == tail;
  }

  // ---------------------------------------------------------------------
  // The tag condition of the event details request

  /** The tags whose point sources are shown for an event in the state:
      the rejected ones for a failed event or one without a solution, the
      accepted ones otherwise. The database value is a plain number. */
  function SelectedTags(state: int): (tags: (string, string))
    ensures tags == ("GLM", "Outlier") <==> state == StateNumber(Failed) || state == StateNumber(NoSolution)
    ensures tags != ("GLM", "Outlier") ==> tags == ("Accepted", "Group Accepted")
  {
    if state == StateNumber(Failed) || state == StateNumber(NoSolution) then ("GLM", "Outlier")
    else ("Accepted", "Group Accepted")
  }

  /** `tag_selector`. */
  function TagSelector(state: int): string {
    var tags := SelectedTags(state);
    "(tag = '" + tags.0 + "' or tag = '" + tags.1 + "')"
  }

  // ---------------------------------------------------------------------
  // The platform request

  datatype PlatformRow = PlatformRow(sensorId: int, platformId: int, platformName: string, sensorName: string, fov: real)
  datatype SensorEntry = SensorEntry(id: int, name: string, fov: real)
  datatype PlatformEntry = PlatformEntry(name: string, id: int, sensors: map<int, SensorEntry>)

  /** One row added to the platforms object. */
  function AddRow(platforms: map<int, PlatformEntry>, row: PlatformRow): map<int, PlatformEntry> {
    var p := if row.platformId in platforms then platforms[row.platformId]
             else PlatformEntry(row.platformName, row.platformId, map[]);
    platforms[row.platformId := p.(sensors := p.sensors[row.sensorId := SensorEntry(row.sensorId, row.sensorName, row.fov)])]
  }

  /** The platforms object of a list of rows, row by row. */
  function GroupRows(rows: seq<PlatformRow>): map<int, PlatformEntry> {
    if rows == [] then map[] else AddRow(GroupRows(rows[..|rows| - 1]), rows[|rows| - 1])
  }

  /** The loop that fills the platforms object. */
  method GroupPlatforms(rows: seq<PlatformRow>) returns (platforms: map<int, PlatformEntry>)
    ensures platforms == GroupRows(rows)
  {
    platforms := map[];
    for i := 0 to |rows|
      invariant platforms == GroupRows(rows[..i])
    {
      assert rows[..i + 1][..i] == rows[..i];
      var row := rows[i];
      if row.platformId !in platforms {
        platforms := platforms[row.platformId := PlatformEntry(row.platformName, row.platformId, map[])];
      }
      var p := platforms[row.platformId];
      platforms := platforms[row.platformId := p.(sensors := p.sensors[row.sensorId := SensorEntry(row.sensorId, row.sensorName, row.fov)])];
    }
    assert rows[..|rows|] == rows;
  }

  /** Some row before `n` is of the platform. */
  ghost predicate HasPlatform(rows: seq<PlatformRow>, n: nat, platform: int)
    requires n <= |rows|
  {
    exists i :: 0 <= i < n && rows[i].platformId == platform
  }

  /** Some row before `n` is of the platform and the sensor. */
  ghost predicate HasSensor(rows: seq<PlatformRow>, n: nat, platform: int, sensor: int)
    requires n <= |rows|
  {
    exists i :: 0 <= i < n && rows[i].platformId == platform && rows[i].sensorId == sensor
  }

  /** One entry per platform of the rows, keyed and named after its first
      row, each with one sensor per sensor of its rows, and every entry
      keyed by its own id. */
  lemma {:induction false} GroupRowsPlatforms(rows: seq<PlatformRow>, platform: int, sensor: int)
    ensures var g := GroupRows(rows);
      (platform in g <==> HasPlatform(rows, |rows|, platform)) &&
      (platform in g ==>
        g[platform].id == platform &&
        (sensor in g[platform].sensors <==> HasSensor(rows, |rows|, platform, sensor)) &&
        (sensor in g[platform].sensors ==> g[platform].sensors[sensor].id == sensor))
    decreases |rows|
  {
    if rows != [] {
      var n := |rows| - 1;
      var p := rows[..n];
      GroupRowsPlatforms(p, platform, sensor);
      assert HasPlatform(rows, |rows|, platform) <==> HasPlatform(p, n, platform) || rows[n].platformId == platform by {
        if HasPlatform(p, n, platform) {
          var i :| 0 <= i < n && p[i].platformId == platform;
          assert rows[i] == p[i];
        }
      }
      assert HasSensor(rows, |rows|, platform, sensor) <==>
        HasSensor(p, n, platform, sensor) || (rows[n].platformId == platform && rows[n].sensorId == sensor) by {
        if HasSensor(p, n, platform, sensor) {
          var i :| 0 <= i < n && p[i].platformId == platform && p[i].sensorId == sensor;
          assert rows[i] == p[i];
        }
      }
    }
  }

  /** A platform keeps the name of its first row. */
  lemma {:induction false} GroupRowsFirstName(rows: seq<PlatformRow>, i: nat)
    requires i < |rows| && forall j :: 0 <= j < i ==> rows[j].platformId != rows[i].platformId
    ensures rows[i].platformId in GroupRows(rows)
    ensures GroupRows(rows)[rows[i].platformId].name == rows[i].platformName
    decreases |rows|
  {
    GroupRowsPlatforms(rows, rows[i].platformId, 0);
    var n := |rows| - 1;
    var p := rows[..n];
    if i < n {
      GroupRowsFirstName(p, i);
      GroupRowsPlatforms(p, rows[i].platformId, 0);
      assert HasPlatform(p, n, rows[i].platformId) by {
        assert p[i] == rows[i];
      }
    } else {
      assert rows[i].platformId !in GroupRows(p) by {
        GroupRowsPlatforms(p, rows[i].platformId, 0);
        forall j | 0 <= j < n ensures p[j].platformId != rows[i].platformId {
          assert p[j] == rows[j];
        }
      }
    }
  }

  /** The sensor entry of the last row of a platform and a sensor is that
      row's sensor. */
  lemma {:induction false} GroupRowsLastSensor(rows: seq<PlatformRow>, i: nat)
    requires i < |rows|
    requires forall j :: i < j < |rows| ==> rows[j].platformId != rows[i].platformId || rows[j].sensorId != rows[i].sensorId
    ensures var g := GroupRows(rows);
      rows[i].platformId in g && rows[i].sensorId in g[rows[i].platformId].sensors &&
      g[rows[i].platformId].sensors[rows[i].sensorId] == SensorEntry(rows[i].sensorId, rows[i].sensorName, rows[i].fov)
    decreases |rows|
  {
    var n := |rows| - 1;
    if i < n {
      var p := rows[..n];
      GroupRowsLastSensor(p, i);
    }
  }
}
