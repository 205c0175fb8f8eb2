/** Where a merge stops, and what it reports. */
module MergeFailures {
  import opened Ast
  import opened Catalog
  import opened Indexed
  import opened Splitter
  import opened Script
  import opened Rereading
  import opened Merger

  /** The statements of all files in one row, each with the name of its file. */
  lemma {:induction false} SourcesJoin(a: seq<File>, b: seq<File>)
    ensures Sources(a + b) == Sources(a) + Sources(b)
    decreases |a|
  {
    hide Statements, SourcesIn;
    if a == [] {
      assert a + b == b && Sources(a) + Sources(b) == Sources(b);
    } else {
      assert (a + b)[1..] == a[1..] + b;
      SourcesJoin(a[1..], b);
      var x := SourcesIn(a[0].name, Statements(a[0].content));
      assert x + (Sources(a[1..]) + Sources(b)) == x + Sources(a[1..]) + Sources(b);
    }
  }

  /** Statement j of a file comes behind those of the files before it. */
  lemma SourceAt(a: seq<File>, f: File, b: seq<File>, j: nat)
    requires j < |Statements(f.content)|
    ensures var k := |Sources(a)| + j;
            k < |Sources(a + [f] + b)| && Sources(a + [f] + b)[k] == Source(f.name, Statements(f.content)[j])
  {
    hide Statements, Sources, SourcesIn;
    var texts := Statements(f.content);
    SourcesJoin(a + [f], b);
    SourcesJoin(a, [f]);
    assert f == File(f.name, f.content);
    OneFile(f.name, f.content);
    SourceIs(f.name, texts, j);
  }

  lemma {:induction false} SourceIs(file: string, texts: seq<string>, j: nat)
    requires j < |texts|
    ensures |SourcesIn(file, texts)| == |texts| && SourcesIn(file, texts)[j] == Source(file, texts[j])
    decreases |texts|
  {
    if j > 0 { SourceIs(file, texts[1..], j - 1); } else { SourceTexts(file, texts); }
  }

  /** The first text that cannot be read, or whose statement fails, ends the merge
      with the name of its file; what comes after it does not matter. */
  lemma FirstFailure(x: Indexed.Schema, sources: seq<Source>, ss: seq<Statement>, bad: Source, after: seq<Source>,
                     parse: Parser)
    requires Reads(sources, parse, ss) && RunX(x, ss).outcome.Done?
    ensures var all, y := sources + [bad] + after, RunX(x, ss).state;
            && (parse(bad.text).Malformed? ==> Feed(x, all, parse) == Stopped(ParseFailed(bad.file)))
            && (parse(bad.text).Read? ==>
                  var r := ApplyX(y, parse(bad.text).statement);
                  && (r.outcome.Failed? ==> Feed(x, all, parse) == Stopped(ApplyFailed(bad.file, r.outcome.error)))
                  && (r.outcome.Crashed? ==> Feed(x, all, parse) == Stopped(Panicked)))
  {
    hide ApplyX, Reads;
    FeedRuns(x, sources, parse, ss);
    FeedAppend(x, sources, [bad] + after, parse);
    FeedStep(RunX(x, ss).state, bad, after, parse);
    assert sources + [bad] + after == sources + ([bad] + after);
  }

  /** Only a merge that reads and runs everything writes a file: that of the schema
      it ends with, and the number of input files. */
  lemma MergedExactly(files: seq<File>, parse: Parser, ss: seq<Statement>)
    requires Reads(Sources(files), parse, ss)
    ensures var r := Conclude(Feed(NEW, Sources(files), parse), |files|);
            && (r.Merged? <==> RunX(NEW, ss).outcome.Done?)
            && (r.Merged? ==> r == Merged(Output(RunX(NEW, ss).state.db), |files|))
  {
    hide Reads, Sources, Output, ApplyX, RunX;
    FeedRuns(NEW, Sources(files), parse, ss);
    hide Feed;
    StopsUnmerged(NEW, Sources(files), parse);
  }

  lemma {:induction false} StopsUnmerged(x: Indexed.Schema, sources: seq<Source>, parse: Parser)
    ensures var e := Feed(x, sources, parse); e.Stopped? ==> !e.result.Merged?
    decreases |sources|
  {
    hide ApplyX;
    if sources != [] {
      match parse(sources[0].text)
      case Malformed =>
      case Read(s) => if ApplyX(x, s).outcome.Done? { StopsUnmerged(ApplyX(x, s).state, sources[1..], parse); }
    }
  }
}
