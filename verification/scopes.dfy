/** Names: the sources of a query, the chain of the queries around it, and the column a name
    reaches. */
module Scopes {
  import opened Options
  import opened Bound
  import opened Evaluation
  import opened Evaluator

  datatype Qualifier = Qualifier(server: Option<string>, database: Option<string>, schema: Option<string>, name: string)

  datatype QualifiedName = QualifiedName(database: string, schema: string, name: string, inCurrentDatabase: bool)

  /** One source of a `FROM`; an alias hides the name of the table. */
  datatype Source = Source(alias: string, qualified: Option<QualifiedName>, columns: seq<ColumnBinding>)

  /** The sources of a query, inside the scope of the query that encloses it. */
  datatype Scope = Scope(sources: seq<Source>, parent: Option<Scope>)

  /** `Source::matches`. */
  predicate Answers(source: Source, q: Qualifier) {
    if q.server.Some? then false
    else if q.database.None? && q.schema.None? then EqIgnoreCase(source.alias, q.name)
    else if q.schema.None? || source.qualified.None? then false
    else
      var named := source.qualified.value;
      EqIgnoreCase(q.schema.value, named.schema) && EqIgnoreCase(q.name, named.name)
      && if q.database.None? then named.inCurrentDatabase else EqIgnoreCase(q.database.value, named.database)
  }

  predicate Asked(source: Source, q: Option<Qualifier>) {
    q.None? || Answers(source, q.value)
  }

  predicate Carries(c: ColumnBinding, name: string) {
    c.name.Written? && EqIgnoreCase(c.name.text, name)
  }

  function ColumnsNamed(columns: seq<ColumnBinding>, name: string): (found: seq<ColumnBinding>)
    ensures forall i :: 0 <= i < |found| ==> Carries(found[i], name) && found[i] in columns
  {
    if columns == [] then []
    else (if Carries(columns[0], name) then [columns[0]] else []) + ColumnsNamed(columns[1..], name)
  }

  /** The columns of the name, in the sources the qualifier names. */
  function Matches(sources: seq<Source>, q: Option<Qualifier>, name: string): seq<ColumnBinding> {
    if sources == [] then []
    else Matches(sources[..|sources| - 1], q, name)
         + (if Asked(sources[|sources| - 1], q) then ColumnsNamed(sources[|sources| - 1].columns, name) else [])
  }

  datatype Found = One(column: ColumnBinding) | Absent | Ambiguous

  /** What so many matches are. */
  function Counted(matches: seq<ColumnBinding>): Found {
    if |matches| == 0 then Absent else if |matches| == 1 then One(matches[0]) else Ambiguous
  }

  predicate AnyAsked(sources: seq<Source>, q: Option<Qualifier>) {
    exists i :: 0 <= i < |sources| && Asked(sources[i], q)
  }

  /** What a name reaches among the sources; `None` when no source is asked. */
  function LookupOf(sources: seq<Source>, q: Option<Qualifier>, name: string): Option<Found> {
    if AnyAsked(sources, q) then Some(Counted(Matches(sources, q, name))) else None
  }

  /** `Source::column`. */
  function SourceColumn(source: Source, name: string): Found {
    Counted(ColumnsNamed(source.columns, name))
  }

  /** `lookup`: a fold over the sources, which is counting the matches. */
  method Lookup(sources: seq<Source>, q: Option<Qualifier>, name: string) returns (found: Option<Found>)
    ensures found == LookupOf(sources, q, name)
  {
    found := None;
    assert sources[..0] == [];
    for i := 0 to |sources|
      invariant found == LookupOf(sources[..i], q, name)
    {
      LookupStep(sources[..i + 1], q, name);
      assert sources[..i + 1][..i] == sources[..i];
      if Asked(sources[i], q) {
        var here := SourceColumn(sources[i], name);
        if found.None? || found.value == Absent {
          found := Some(here);
        } else if here != Absent {
          found := Some(Ambiguous);
        }
      }
    }
    assert sources[..|sources|] == sources;
  }

  lemma LookupStep(sources: seq<Source>, q: Option<Qualifier>, name: string)
    requires sources != []
    ensures var front, last := sources[..|sources| - 1], sources[|sources| - 1];
            var before, here := LookupOf(front, q, name), SourceColumn(last, name);
            LookupOf(sources, q, name)
            == if !Asked(last, q) then before
               else if before.None? || before.value == Absent then Some(here)
               else if here == Absent then before
               else Some(Ambiguous)
  {
    var front, last := sources[..|sources| - 1], sources[|sources| - 1];
    assert AnyAsked(sources, q) <==> AnyAsked(front, q) || Asked(last, q);
    if !AnyAsked(front, q) { NoneAsked(front, q, name); }
  }

  lemma {:induction false} NoneAsked(sources: seq<Source>, q: Option<Qualifier>, name: string)
    requires !AnyAsked(sources, q)
    ensures Matches(sources, q, name) == []
    decreases |sources|
  {
    if sources != [] {
      var front := sources[..|sources| - 1];
      assert forall i :: 0 <= i < |front| ==> front[i] == sources[i];
      NoneAsked(front, q, name);
    }
  }

  // ----- the chain of queries -----

  /** `Scope::inside`. */
  function Inside(scope: Scope, parent: Scope): Scope {
    scope.(parent := Some(parent))
  }

  const EMPTY := Scope([], None)

  /** `Scope::unwrapped`: the parent of an empty wrapper, the scope itself otherwise. */
  function Unwrapped(scope: Scope): Scope {
    if scope.parent.Some? && scope.sources == [] then scope.parent.value else scope
  }

  /** The sources of each query, from the one that reads outwards. */
  function Levels(scope: Scope): (levels: seq<seq<Source>>)
    ensures |levels| > 0 && levels[0] == scope.sources
  {
    [scope.sources] + (if scope.parent.Some? then Levels(scope.parent.value) else [])
  }

  /** A nested query is one level further in, and no more, whatever its enclosing query reads: the
      wrapper a subquery hands its scope over in is dropped. */
  lemma OneLinkPerQuery(sources: seq<Source>, outer: Scope)
    ensures Unwrapped(Inside(EMPTY, outer)) == outer
    ensures Levels(Inside(Scope(sources, None), Unwrapped(Inside(EMPTY, outer)))) == [sources] + Levels(outer)
  {
  }

  datatype Resolved = Reached(column: ColumnBinding) | NoSuchColumn | AmbiguousColumn | NotBound

  /** Whether a level answers: a bare name wants a column, a qualified one a source. */
  predicate LevelAnswers(sources: seq<Source>, q: Option<Qualifier>, name: string) {
    var found := LookupOf(sources, q, name);
    found.Some? && (q.Some? || found.value != Absent)
  }

  /** The innermost level that answers, or the number of levels. */
  function Innermost(levels: seq<seq<Source>>, q: Option<Qualifier>, name: string): (k: nat)
    ensures k <= |levels|
    ensures k < |levels| ==> LevelAnswers(levels[k], q, name)
    ensures forall j :: 0 <= j < k ==> !LevelAnswers(levels[j], q, name)
  {
    if levels == [] || LevelAnswers(levels[0], q, name) then 0 else 1 + Innermost(levels[1..], q, name)
  }

  /** A depth is held in eight bits, and stops at the largest. */
  function DepthAt(level: nat): nat {
    if level <= 255 then level else 255
  }

  /** What is found, so many levels out. */
  function At(found: Found, level: nat): Resolved {
    match found
    case One(column) => Reached(column.(depth := DepthAt(level)))
    case Absent => NoSuchColumn
    case Ambiguous => AmbiguousColumn
  }

  /** Lexical resolution: the innermost level that answers decides. */
  function ResolveName(levels: seq<seq<Source>>, q: Option<Qualifier>, name: string): Resolved {
    ResolveAt(levels, Innermost(levels, q, name), q, name)
  }

  function ResolveAt(levels: seq<seq<Source>>, k: nat, q: Option<Qualifier>, name: string): Resolved
    requires k < |levels| ==> LevelAnswers(levels[k], q, name)
  {
    if k >= |levels| then NotBound else At(LookupOf(levels[k], q, name).value, k)
  }

  /** `bind_column`, a niladic function aside: a walk out along the chain. */
  method BindColumn(scope: Scope, q: Option<Qualifier>, name: string) returns (r: Resolved)
    ensures r == ResolveName(Levels(scope), q, name)
  {
    var current := Some(scope);
    var depth := 0;
    ghost var level := 0;
    ghost var levels := Levels(scope);
    while current.Some?
      invariant level <= |levels| && depth == DepthAt(level)
      invariant current.Some? ==> levels[level..] == Levels(current.value)
      invariant current.None? ==> level == |levels|
      invariant forall j :: 0 <= j < level ==> !LevelAnswers(levels[j], q, name)
      decreases current
    {
      assert levels[level] == levels[level..][0] == current.value.sources;
      var found := Lookup(current.value.sources, q, name);
      if found.None? || (found.value == Absent && q.None?) {
        assert levels[level + 1..] == levels[level..][1..];
        current := current.value.parent;
        depth := if depth < 255 then depth + 1 else 255;
        level := level + 1;
      } else {
        InnermostIs(levels, q, name, level);
        match found.value {
          case One(column) => return Reached(column.(depth := depth));
          case Absent => return NoSuchColumn;
          case Ambiguous => return AmbiguousColumn;
        }
      }
    }
    InnermostIs(levels, q, name, level);
    return NotBound;
  }

  lemma {:induction false} InnermostIs(levels: seq<seq<Source>>, q: Option<Qualifier>, name: string, k: nat)
    requires k <= |levels| && (k < |levels| ==> LevelAnswers(levels[k], q, name))
    requires forall j :: 0 <= j < k ==> !LevelAnswers(levels[j], q, name)
    ensures Innermost(levels, q, name) == k
  {
    var i := Innermost(levels, q, name);
    assert i < |levels| ==> LevelAnswers(levels[i], q, name);
  }

  /** Whatever the rows of the queries around an expression, one per level, the reference reads the
      column it was resolved to. */
  ghost predicate AlwaysReads(levels: nat, column: ColumnBinding, found: ColumnBinding, k: nat)
    requires k < levels
  {
    forall env: Env :: |env| == levels ==> Evaluation.Lookup(env, column) == Read(env[k], found)
  }

  /** It does if and only if the column is at most 255 queries out, where its depth is its level. */
  lemma ReadsTheColumn(levels: seq<seq<Source>>, q: Option<Qualifier>, name: string)
    requires ResolveName(levels, q, name).Reached?
    ensures var k, column := Innermost(levels, q, name), ResolveName(levels, q, name).column;
            k < |levels| && (column.depth == k <==> k <= 255)
            && (AlwaysReads(|levels|, column, LookupOf(levels[k], q, name).value.column, k) <==> k <= 255)
  {
    var k, column := Innermost(levels, q, name), ResolveName(levels, q, name).column;
    if k > 255 {
      var found := LookupOf(levels[k], q, name).value.column;
      var env: Env := seq(|levels|, i => Plain(seq(found.index + 1, _ => if i == k then Truth(true) else Null)));
      assert Evaluation.Lookup(env, column) == Val(Null) && Read(env[k], found) == Val(Truth(true));
    }
  }

  lemma DeeperInnermost(levels: seq<seq<Source>>, q: Option<Qualifier>, name: string)
    ensures Innermost([[]] + levels, q, name) == 1 + Innermost(levels, q, name)
  {
    assert ([[]] + levels)[1..] == levels;
    assert !AnyAsked([], q);
    assert !LevelAnswers(([[]] + levels)[0], q, name);
  }

  lemma DeeperResolves(levels: seq<seq<Source>>, q: Option<Qualifier>, name: string, k: nat)
    requires k == Innermost(levels, q, name)
    ensures ResolveName([[]] + levels, q, name)
         == if k == |levels| then NotBound else At(LookupOf(levels[k], q, name).value, k + 1)
  {
    var deeper := [[]] + levels;
    assert Innermost(deeper, q, name) == 1 + k by { DeeperInnermost(levels, q, name); }
    if k < |levels| { assert deeper[k + 1] == levels[k]; }
  }

  /** The same name read one query deeper, from a query of no source, is the same column one
      level further out. */
  lemma OneQueryDeeper(levels: seq<seq<Source>>, q: Option<Qualifier>, name: string)
    requires ResolveName(levels, q, name).Reached? && Innermost(levels, q, name) < 255
    ensures var here := ResolveName(levels, q, name).column;
            ResolveName([[]] + levels, q, name) == Reached(here.(depth := here.depth + 1))
  {
    DeeperResolves(levels, q, name, Innermost(levels, q, name));
  }

  /** And a name that reaches nothing still does. */
  lemma OneQueryDeeperFails(levels: seq<seq<Source>>, q: Option<Qualifier>, name: string)
    requires !ResolveName(levels, q, name).Reached?
    ensures ResolveName([[]] + levels, q, name) == ResolveName(levels, q, name)
  {
    DeeperResolves(levels, q, name, Innermost(levels, q, name));
  }
}
