/**
 * `JsLinker` and `get_first_capture`: the imperative code that the functions
 * of Corpus, Patterns and Scan specify.
 */
module Linker {
  import opened Wrappers
  import opened Seqs
  import opened Parser
  import opened Regex
  import opened Corpus
  import opened Patterns
  import opened Scan

  /** `get_first_capture`: scans groups 1..capsLen and returns the first present one. */
  method GetFirstCapture(caps: Option<Captures>, capsLen: nat) returns (r: Option<(Match, nat)>)
    ensures r == FirstCapture(caps, capsLen)
  {
    match caps {
      case Some(captures) =>
        for i := 1 to capsLen + 1
          invariant FirstFrom(captures, i, capsLen) == FirstFrom(captures, 1, capsLen)
        {
          if Get(captures, i).Some? {
            return Some((Get(captures, i).value, i));
          }
        }
      case None =>
    }
    return None;
  }

  /**
   * The group text of one parsed note: the identity list (title, then the
   * aliases if they could be extracted), each escaped; then the group built
   * from them.
   */
  method FileRegexStr(file: MDFile, escape: Escape) returns (fileRegexStr: string)
    ensures fileRegexStr == FileGroupStr(file, escape)
  {
    var aliases := [file.title];
    match file.aliases {
      case Ok(fileAliases) =>
        for k := 0 to |fileAliases|
          invariant aliases == [file.title] + fileAliases[..k]
        {
          assert fileAliases[..k + 1] == fileAliases[..k] + [fileAliases[k]];
          aliases := aliases + [fileAliases[k]];
        }
        assert fileAliases[..|fileAliases|] == fileAliases;
      case Err(_) =>
    }
    assert aliases == Identities(file);

    var cleanedAliases: seq<string> := [];
    for k := 0 to |aliases|
      invariant cleanedAliases == Map(escape, aliases[..k])
    {
      cleanedAliases := cleanedAliases + [escape(aliases[k])];
    }
    assert aliases[..|aliases|] == aliases;
    fileRegexStr := GroupRegexStr(cleanedAliases);
  }

  /**
   * The group of escaped alternatives: each wrapped between word boundaries
   * and followed by `|`, the last `|` popped, the whole in parentheses.
   * The caller always has the title, so there is at least one alternative.
   */
  method GroupRegexStr(cleanedAliases: seq<string>) returns (fileRegexStr: string)
    requires |cleanedAliases| > 0
    ensures fileRegexStr == GroupPattern(cleanedAliases)
  {
    fileRegexStr := "(";
    for k := 0 to |cleanedAliases|
      invariant fileRegexStr == "(" + Terminated(cleanedAliases[..k])
    {
      assert cleanedAliases[..k + 1][..k] == cleanedAliases[..k];
      fileRegexStr := fileRegexStr + ("(?:\\b" + cleanedAliases[k] + "\\b)|");
    }
    assert cleanedAliases[..|cleanedAliases|] == cleanedAliases;
    TerminatedIsJoinThenBar(cleanedAliases);
    var joined := Join(Map(Wrap, cleanedAliases));
    assert fileRegexStr == "(" + joined + "|";
    fileRegexStr := fileRegexStr[..|fileRegexStr| - 1];
    assert fileRegexStr == "(" + joined;
    fileRegexStr := fileRegexStr + ")";
  }

  /**
   * The group strings and the group table, built in one pass over the
   * corpus: each parsed note gets the next group number, failed notes none.
   */
  method BuildGroups(files: seq<ParseOutcome>, escape: Escape)
    returns (fileRegexStrs: seq<string>, fileGroups: map<nat, string>)
    ensures fileRegexStrs == FileRegexStrs(files, escape)
    ensures fileGroups == GroupTable(files)
  {
    fileGroups := map[];
    var groupIndex: nat := 1;
    fileRegexStrs := [];
    for i := 0 to |files|
      invariant fileRegexStrs == FileRegexStrs(files[..i], escape)
      invariant fileGroups == GroupTable(files[..i])
      invariant groupIndex == |ParsedFiles(files[..i])| + 1
    {
      GroupStep(files, i, escape);
      if files[i].Err? {
        continue;
      }
      var file := files[i].value;
      var fileRegexStr := FileRegexStr(file, escape);
      GroupStrsAppend(ParsedFiles(files[..i]), file, escape);
      GroupTableAppend(ParsedFiles(files[..i]), file);
      fileRegexStrs := fileRegexStrs + [fileRegexStr];
      fileGroups := fileGroups[groupIndex := file.path];
      groupIndex := groupIndex + 1;
    }
    assert files[..|files|] == files;
  }

  /**
   * The link of one span, if its text can be read and a group matched;
   * `ExpectedGroup` if that group has no entry in the table.
   */
  method ScanSpan(regex: Regex, filesLen: nat, source: string, stringPos: StringPosition, fileGroups: map<nat, string>)
    returns (r: Result<seq<JsLink>, Panic>)
    ensures var hit := SpanHit(regex, filesLen, source, stringPos);
      if Resolvable(hit, fileGroups) then r == Ok(Links(hit, fileGroups)) else r == Err(ExpectedGroup)
  {
    match stringPos.inner {
      case Ok(text) =>
        var caps := regex(text);
        var capResult := GetFirstCapture(caps, filesLen);
        match capResult {
          case Some((capture, groupIndex)) =>
            ghost var h := Hit(source, stringPos.start, capture, groupIndex);
            assert SpanHit(regex, filesLen, source, stringPos) == [h];
            if groupIndex !in fileGroups {
              return Err(ExpectedGroup);
            }
            var target := fileGroups[groupIndex];
            var start := stringPos.start;
            var capStart := capture.start;
            var link := JsLink(source, target, capture.text, start + capStart, start + capStart + |capture.text|);
            assert link == MakeLink(h, target);
            assert [h][..0] == [];
            assert Links([h], fileGroups) == [link];
            assert Links(SpanHit(regex, filesLen, source, stringPos), fileGroups) == [link];
            return Ok([link]);
          case None =>
            return Ok([]);
        }
      case Err(_) =>
        return Ok([]);
    }
  }

  /** The links of one parsed note, span by span; `ExpectedGroup` as soon as a group has no entry. */
  method ScanFile(regex: Regex, filesLen: nat, mdFile: MDFile, fileGroups: map<nat, string>)
    returns (r: Result<seq<JsLink>, Panic>)
    ensures var hits := SpanHits(regex, filesLen, mdFile.path, mdFile.stringNodes);
      if Resolvable(hits, fileGroups) then r == Ok(Links(hits, fileGroups)) else r == Err(ExpectedGroup)
  {
    var links: seq<JsLink> := [];
    var stringPositions := mdFile.stringNodes;
    for j := 0 to |stringPositions|
      invariant Resolvable(SpanHits(regex, filesLen, mdFile.path, stringPositions[..j]), fileGroups)
      invariant links == Links(SpanHits(regex, filesLen, mdFile.path, stringPositions[..j]), fileGroups)
    {
      var spanLinks := ScanSpan(regex, filesLen, mdFile.path, stringPositions[j], fileGroups);
      if spanLinks.Err? {
        SpanUnresolvable(regex, filesLen, mdFile.path, stringPositions, j, fileGroups);
        return Err(ExpectedGroup);
      }
      SpanStep(regex, filesLen, mdFile.path, stringPositions, j, fileGroups);
      links := links + spanLinks.value;
    }
    assert stringPositions[..|stringPositions|] == stringPositions;
    return Ok(links);
  }

  /** The links of one parse outcome: those of its spans if it parsed, none if it failed. */
  method ScanOutcome(regex: Regex, filesLen: nat, file: ParseOutcome, fileGroups: map<nat, string>)
    returns (r: Result<seq<JsLink>, Panic>)
    ensures var hits := OutcomeHits(regex, filesLen, file);
      if Resolvable(hits, fileGroups) then r == Ok(Links(hits, fileGroups)) else r == Err(ExpectedGroup)
  {
    match file {
      case Ok(mdFile) =>
        r := ScanFile(regex, filesLen, mdFile, fileGroups);
      case Err(_) =>
        r := Ok([]);
    }
  }

  /** The links of every parsed note, note by note; `ExpectedGroup` as soon as a group has no entry. */
  method ScanFiles(regex: Regex, filesLen: nat, files: seq<ParseOutcome>, fileGroups: map<nat, string>)
    returns (r: Result<seq<JsLink>, Panic>)
    ensures var hits := FileHits(regex, filesLen, files);
      if Resolvable(hits, fileGroups) then r == Ok(Links(hits, fileGroups)) else r == Err(ExpectedGroup)
  {
    var links: seq<JsLink> := [];
    for i := 0 to |files|
      invariant Resolvable(FileHits(regex, filesLen, files[..i]), fileGroups)
      invariant links == Links(FileHits(regex, filesLen, files[..i]), fileGroups)
    {
      var fileLinks := ScanOutcome(regex, filesLen, files[i], fileGroups);
      if fileLinks.Err? {
        FileUnresolvable(regex, filesLen, files, i, fileGroups);
        return Err(ExpectedGroup);
      }
      FileStep(regex, filesLen, files, i, fileGroups);
      links := links + fileLinks.value;
    }
    assert files[..|files|] == files;
    return Ok(links);
  }

  /** The linker: one parse outcome per note, fixed at construction. */
  class JsLinker {
    const files: seq<ParseOutcome>

    /** `JsLinker::new`: parses each zipped (path, content) pair, in order. */
    constructor (filePaths: seq<string>, fileContents: seq<string>, parse: ParseFn)
      ensures files == ParseAll(filePaths, fileContents, parse)
    {
      var mdFiles: seq<ParseOutcome> := [];
      var i := 0;
      while i < |filePaths| && i < |fileContents|
        invariant i <= |filePaths| && i <= |fileContents|
        invariant |mdFiles| == i
        invariant forall k :: 0 <= k < i ==> mdFiles[k] == parse(fileContents[k], filePaths[k])
      {
        mdFiles := mdFiles + [parse(fileContents[i], filePaths[i])];
        i := i + 1;
      }
      files := mdFiles;
    }

    /** `get_bad_parse_files`: the path of every `ParseError` outcome, in corpus order. */
    method GetBadParseFiles() returns (badFiles: seq<string>)
      ensures badFiles == BadParseFiles(files)
    {
      badFiles := [];
      for i := 0 to |files|
        invariant badFiles == BadParseFiles(files[..i])
      {
        assert files[..i + 1][..i] == files[..i];
        match files[i] {
          case Ok(_) =>
          case Err(e) =>
            match e {
              case ParseError(path) => badFiles := badFiles + [path];
              case Other =>
            }
        }
      }
      assert files[..|files|] == files;
    }

    /**
     * `get_links`: compiles every parsed note's group into one pattern,
     * takes one capture per readable span of every parsed note, resolves its
     * group to a target path and drops self-links unless they are wanted.
     */
    method GetLinks(caseInsensitive: bool, linkToSelf: bool, escape: Escape, build: Builder)
      returns (r: Result<seq<JsLink>, Panic>)
      ensures r == GetLinksResult(files, caseInsensitive, linkToSelf, escape, build)
    {
      var filesLen := |files|;
      var fileRegexStrs, fileGroups := BuildGroups(files, escape);

      var pattern := Join(fileRegexStrs);
      var built := build(pattern, caseInsensitive);
      if built.None? {
        return Err(InvalidRegex);
      }
      var regex := built.value;

      var scanned := ScanFiles(regex, filesLen, files, fileGroups);
      if scanned.Err? {
        return Err(ExpectedGroup);
      }
      var links := scanned.value;
      if !linkToSelf {
        links := DropSelfLinks(links);
      }
      return Ok(links);
    }
  }
}
