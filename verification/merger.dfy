/** The whole merge: every statement of every file, in order, on one schema, and
    then the script; the first failure stops it. */
module Merger {
  import opened Text
  import opened Ast
  import opened Catalog
  import opened Indexed
  import opened Plain
  import opened Refinement
  import opened Splitter
  import opened Splitting
  import opened Script
  import opened Rereading
  import State = SchemaState
  import Emitter

  datatype File = File(name: string, content: string)

  datatype Result =
    | Merged(output: string, files: nat)
    | ParseFailed(file: string)
    | ApplyFailed(file: string, error: Error)
    | Panicked

  /** A statement text with the file it stands in. */
  datatype Source = Source(file: string, text: string)

  datatype End = Finished(schema: Indexed.Schema) | Stopped(result: Result)

  function SourcesIn(file: string, texts: seq<string>): seq<Source> {
    if texts == [] then [] else [Source(file, texts[0])] + SourcesIn(file, texts[1..])
  }

  /** The statements of all files, file after file. */
  function Sources(files: seq<File>): seq<Source> {
    if files == [] then []
    else SourcesIn(files[0].name, Statements(files[0].content)) + Sources(files[1..])
  }

  /** Feeds one text after the other to the schema, up to the first failure. */
  function Feed(x: Indexed.Schema, sources: seq<Source>, parse: Parser): End
    decreases |sources|
  {
    if sources == [] then Finished(x)
    else
      match parse(sources[0].text)
      case Malformed => Stopped(ParseFailed(sources[0].file))
      case Read(s) =>
        var r := ApplyX(x, s);
        match r.outcome
        case Done => Feed(r.state, sources[1..], parse)
        case Failed(e) => Stopped(ApplyFailed(sources[0].file, e))
        case Crashed => Stopped(Panicked)
  }

  function Conclude(end: End, files: nat): Result {
    match end
    case Finished(x) => Merged(Output(x.db), files)
    case Stopped(r) => r
  }

  lemma {:induction false} FeedAppend(x: Indexed.Schema, a: seq<Source>, b: seq<Source>, parse: Parser)
    ensures Feed(x, a + b, parse) ==
            match Feed(x, a, parse) case Finished(y) => Feed(y, b, parse) case Stopped(r) => Stopped(r)
    decreases |a|
  {
    hide ApplyX;
    if a == [] {
      assert a + b == b;
    } else {
      assert (a + b)[0] == a[0] && (a + b)[1..] == a[1..] + b;
      if parse(a[0].text).Read? && ApplyX(x, parse(a[0].text).statement).outcome.Done? {
        FeedAppend(ApplyX(x, parse(a[0].text).statement).state, a[1..], b, parse);
      }
    }
  }

  lemma SourcesStep(file: string, texts: seq<string>, i: nat)
    requires i < |texts|
    ensures SourcesIn(file, texts[i..]) == [Source(file, texts[i])] + SourcesIn(file, texts[i + 1..])
  {
    assert texts[i..][0] == texts[i] && texts[i..][1..] == texts[i + 1..];
  }

  lemma FeedStep(x: Indexed.Schema, source: Source, rest: seq<Source>, parse: Parser)
    ensures Feed(x, [source] + rest, parse) ==
            match parse(source.text)
            case Malformed => Stopped(ParseFailed(source.file))
            case Read(s) =>
              match ApplyX(x, s).outcome
              case Done => Feed(ApplyX(x, s).state, rest, parse)
              case Failed(e) => Stopped(ApplyFailed(source.file, e))
              case Crashed => Stopped(Panicked)
  {
    hide ApplyX;
    assert ([source] + rest)[1..] == rest;
  }

  /** The inner loop: the statements of one file. */
  method RunFile(s: State.Schema, file: string, stmts: seq<string>, parse: Parser) returns (failure: Option<Result>)
    requires s.Valid()
    modifies s, set t | t in s.tables
    ensures s.Valid() && (forall t :: t in s.tables ==> t in old(s.tables) || fresh(t))
    ensures Feed(old(s.View()), SourcesIn(file, stmts), parse)
            == if failure.None? then Finished(s.View()) else Stopped(failure.value)
  {
    hide ApplyX, Feed, SourcesIn;
    ghost var goal := Feed(s.View(), SourcesIn(file, stmts), parse);
    assert stmts[0..] == stmts;
    for i := 0 to |stmts|
      invariant s.Valid() && (forall t :: t in s.tables ==> t in old(s.tables) || fresh(t))
      invariant Feed(s.View(), SourcesIn(file, stmts[i..]), parse) == goal
    {
      SourcesStep(file, stmts, i);
      FeedStep(s.View(), Source(file, stmts[i]), SourcesIn(file, stmts[i + 1..]), parse);
      var reading := parse(stmts[i]);
      if reading.Malformed? { return Some(ParseFailed(file)); }
      var outcome := s.Apply(reading.statement);
      match outcome {
        case Done =>
        case Failed(e) => return Some(ApplyFailed(file, e));
        case Crashed => return Some(Panicked);
      }
    }
    assert stmts[|stmts|..] == [];
    NoSources(file);
    FeedNothing(s.View(), parse);
    return None;
  }

  lemma NoSources(file: string)
    ensures SourcesIn(file, []) == []
  {
  }

  method Run(files: seq<File>, parse: Parser) returns (r: Result)
    ensures r == Conclude(Feed(NEW, Sources(files), parse), |files|)
  {
    hide Statements, Feed, Output, SourcesIn;
    var s := new State.Schema();
    ghost var goal := Feed(NEW, Sources(files), parse);
    assert files[0..] == files;
    for f := 0 to |files|
      invariant s.Valid() && fresh(s) && forall t :: t in s.tables ==> fresh(t)
      invariant Feed(s.View(), Sources(files[f..]), parse) == goal
    {
      var file := files[f];
      assert files[f..][0] == file && files[f..][1..] == files[f + 1..];
      var stmts := Split(file.content);
      FeedAppend(s.View(), SourcesIn(file.name, stmts), Sources(files[f + 1..]), parse);
      var failure := RunFile(s, file.name, stmts, parse);
      if failure.Some? { return failure.value; }
    }
    assert Sources(files[|files|..]) == [];
    FeedNothing(s.View(), parse);
    var output := Emitter.Emit(s);
    return Merged(output, |files|);
  }

  lemma FeedNothing(x: Indexed.Schema, parse: Parser)
    ensures Feed(x, [], parse) == Finished(x)
  {
  }

  // ---- What a merge is ----

  /** All texts can be read, as the statements ss. */
  predicate Reads(sources: seq<Source>, parse: Parser, ss: seq<Statement>) {
    |ss| == |sources| && forall i :: 0 <= i < |ss| ==> parse(sources[i].text) == Read(ss[i])
  }

  /** Feeding readable texts is running their statements. */
  lemma {:induction false} FeedRuns(x: Indexed.Schema, sources: seq<Source>, parse: Parser, ss: seq<Statement>)
    requires Reads(sources, parse, ss)
    ensures Feed(x, sources, parse).Finished? <==> RunX(x, ss).outcome.Done?
    ensures RunX(x, ss).outcome.Done? ==> Feed(x, sources, parse) == Finished(RunX(x, ss).state)
    decreases |ss|
  {
    hide ApplyX;
    if ss != [] {
      assert parse(sources[0].text) == Read(ss[0]);
      if ApplyX(x, ss[0]).outcome.Done? {
        assert Reads(sources[1..], parse, ss[1..]);
        FeedRuns(ApplyX(x, ss[0]).state, sources[1..], parse, ss[1..]);
      }
    }
  }

  lemma {:induction false} SourcesAppend(file: string, a: seq<string>, b: seq<string>)
    ensures SourcesIn(file, a + b) == SourcesIn(file, a) + SourcesIn(file, b)
    decreases |a|
  {
    if a == [] {
      assert a + b == b;
    } else {
      assert (a + b)[0] == a[0] && (a + b)[1..] == a[1..] + b;
      SourcesAppend(file, a[1..], b);
    }
  }

  /** Cutting a file in two behind a statement changes nothing but the count. */
  lemma FilesJoin(name: string, a: string, b: string, rest: seq<File>)
    requires Tidy(a, 0)
    ensures Sources([File(name, a + ";" + b)] + rest) == Sources([File(name, a), File(name, b)] + rest)
  {
    hide Statements, Tidy, SourcesIn;
    SplitComposes(a, b);
    SourcesAppend(name, Statements(a), Statements(b));
    var one, two := [File(name, a + ";" + b)] + rest, [File(name, a), File(name, b)] + rest;
    assert one[1..] == rest && two[1..] == [File(name, b)] + rest && two[1..][1..] == rest;
    assert Sources(two) == SourcesIn(name, Statements(a)) + (SourcesIn(name, Statements(b)) + Sources(rest));
  }

  lemma {:induction false} SourceTexts(file: string, texts: seq<string>)
    ensures var r := SourcesIn(file, texts);
            |r| == |texts| && forall i :: 0 <= i < |r| ==> r[i].text == texts[i]
  {
    if texts != [] { SourceTexts(file, texts[1..]); }
  }

  lemma OneFile(name: string, content: string)
    ensures Sources([File(name, content)]) == SourcesIn(name, Statements(content))
  {
    hide Statements, SourcesIn;
    assert [File(name, content)][1..] == [];
    assert Sources([]) == [];
    assert SourcesIn(name, Statements(content)) + [] == SourcesIn(name, Statements(content));
  }

  lemma {:induction false} CreatesNeverCollide(d: Database, ss: seq<Statement>)
    requires forall s :: s in ss ==> NoRename(s)
    ensures NoCollisions(d, ss)
    decreases |ss|
  {
    hide ApplyP;
    if ss != [] {
      assert ss[0] in ss && forall s :: s in ss[1..] ==> s in ss;
      CreatesNeverCollide(ApplyP(d, ss[0]).state, ss[1..]);
    }
  }

  predicate NoRename(s: Statement) {
    !s.AlterTable? && !s.AlterIndex? && !s.AlterSequence? && !s.AlterType? && !s.AlterObject?
  }
}
