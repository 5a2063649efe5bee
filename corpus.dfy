/**
 * The corpus `JsLinker` holds: one parse outcome per note, and the two views
 * of it that `get_links` and `get_bad_parse_files` take.
 */
module Corpus {
  import opened Wrappers
  import opened Parser

  function Min(a: nat, b: nat): nat { if a <= b then a else b }

  /**
   * The outcomes `JsLinker::new` stores: paths and contents are zipped, so
   * there is one outcome per pair, in input order, and the surplus of the
   * longer list is ignored.
   */
  function ParseAll(paths: seq<string>, contents: seq<string>, parse: ParseFn): (r: seq<ParseOutcome>)
    ensures |r| == Min(|paths|, |contents|)
    ensures forall i :: 0 <= i < |r| ==> r[i] == parse(contents[i], paths[i])
  {
    if paths == [] || contents == [] then []
    else [parse(contents[0], paths[0])] + ParseAll(paths[1..], contents[1..], parse)
  }

  /** What one outcome adds to the failure report: its path if it is a `ParseError`. */
  function BadPath(o: ParseOutcome): seq<string>
  {
    match o
    case Err(ParseError(p)) => [p]
    case _ => []
  }

  /** The paths of the `ParseError` outcomes, in corpus order. */
  function BadParseFiles(files: seq<ParseOutcome>): seq<string>
  {
    if files == [] then [] else BadParseFiles(files[..|files| - 1]) + BadPath(files[|files| - 1])
  }

  /** What one outcome adds to the parsed notes: the note itself if it parsed. */
  function Parsed(o: ParseOutcome): seq<MDFile>
  {
    match o
    case Ok(f) => [f]
    case Err(_) => []
  }

  /** The successfully parsed notes, in corpus order. */
  function ParsedFiles(files: seq<ParseOutcome>): seq<MDFile>
  {
    if files == [] then [] else ParsedFiles(files[..|files| - 1]) + Parsed(files[|files| - 1])
  }

  /** The failure report is order-preserving: it distributes over concatenation of corpora. */
  lemma {:induction false} BadParseFilesAppend(a: seq<ParseOutcome>, b: seq<ParseOutcome>)
    ensures BadParseFiles(a + b) == BadParseFiles(a) + BadParseFiles(b)
    decreases |b|
  {
    if b == [] {
      assert a + b == a;
    } else {
      var b' := b[..|b| - 1];
      assert (a + b)[..|a + b| - 1] == a + b';
      BadParseFilesAppend(a, b');
    }
  }

  /** A path is reported exactly when some outcome is a `ParseError` for it. */
  lemma {:induction false} BadParseFilesMember(files: seq<ParseOutcome>, p: string)
    ensures p in BadParseFiles(files) <==> exists i :: 0 <= i < |files| && files[i] == Err(ParseError(p))
  {
    if files != [] {
      var init := files[..|files| - 1];
      BadParseFilesMember(init, p);
      if exists i :: 0 <= i < |init| && init[i] == Err(ParseError(p)) {
        var i :| 0 <= i < |init| && init[i] == Err(ParseError(p));
        assert files[i] == init[i];
      }
      if exists i :: 0 <= i < |files| && files[i] == Err(ParseError(p)) {
        var i :| 0 <= i < |files| && files[i] == Err(ParseError(p));
        if i < |init| { assert init[i] == files[i]; }
      }
    }
  }

  /** The parsed notes are order-preserving: they distribute over concatenation of corpora. */
  lemma {:induction false} ParsedFilesAppend(a: seq<ParseOutcome>, b: seq<ParseOutcome>)
    ensures ParsedFiles(a + b) == ParsedFiles(a) + ParsedFiles(b)
    decreases |b|
  {
    if b == [] {
      assert a + b == a;
    } else {
      var b' := b[..|b| - 1];
      assert (a + b)[..|a + b| - 1] == a + b';
      ParsedFilesAppend(a, b');
    }
  }

  /** A note is among the parsed notes exactly when some outcome is `Ok` with it. */
  lemma {:induction false} ParsedFilesMember(files: seq<ParseOutcome>, f: MDFile)
    ensures f in ParsedFiles(files) <==> exists i :: 0 <= i < |files| && files[i] == Ok(f)
  {
    if files != [] {
      var init := files[..|files| - 1];
      ParsedFilesMember(init, f);
      if exists i :: 0 <= i < |init| && init[i] == Ok(f) {
        var i :| 0 <= i < |init| && init[i] == Ok(f);
        assert files[i] == init[i];
      }
      if exists i :: 0 <= i < |files| && files[i] == Ok(f) {
        var i :| 0 <= i < |files| && files[i] == Ok(f);
        if i < |init| { assert init[i] == files[i]; }
      }
    }
  }

  /** There are never more parsed notes than outcomes. */
  lemma {:induction false} ParsedFilesLength(files: seq<ParseOutcome>)
    ensures |ParsedFiles(files)| <= |files|
  {
    if files != [] {
      ParsedFilesLength(files[..|files| - 1]);
    }
  }

  lemma NoParsedFromFailure(e: Error)
    ensures ParsedFiles([Err(e)]) == []
  {
    var failed: seq<ParseOutcome> := [Err(e)];
    assert failed[..0] == [];
  }

  /** A failed outcome adds nothing to the parsed notes. */
  lemma ParsedFilesSkipFailed(a: seq<ParseOutcome>, e: Error, b: seq<ParseOutcome>)
    ensures ParsedFiles(a + [Err(e)] + b) == ParsedFiles(a + b)
  {
    NoParsedFromFailure(e);
    ParsedFilesAppend(a + [Err(e)], b);
    ParsedFilesAppend(a, [Err(e)]);
    ParsedFilesAppend(a, b);
  }
}
