/**
 * The reference scanner and result aggregator of `JsLinker::get_links`:
 * capture selection, one hit per readable span, links with absolute offsets,
 * the self-link filter, and the whole result of `get_links` as a function.
 */
module Scan {
  import opened Wrappers
  import opened Seqs
  import opened Parser
  import opened Regex
  import opened Corpus
  import opened Patterns

  /** `JsLink`: one mention of a note (target) inside a note (source). */
  datatype JsLink = JsLink(source: string, target: string, linkText: string, start: nat, end: nat)

  /** The two `expect` panics of `get_links`, modelled as error results. */
  datatype Panic =
    | InvalidRegex    // the combined pattern did not compile
    | ExpectedGroup   // a matched group number has no entry in the group table

  /** The lowest present group among i..capsLen, with its number. */
  function FirstFrom(caps: Captures, i: nat, capsLen: nat): Option<(Match, nat)>
    decreases capsLen + 1 - i
  {
    if i > capsLen then None
    else if Get(caps, i).Some? then Some((Get(caps, i).value, i))
    else FirstFrom(caps, i + 1, capsLen)
  }

  /** `get_first_capture`: the lowest present group among 1..capsLen of a match, if any. */
  function FirstCapture(caps: Option<Captures>, capsLen: nat): Option<(Match, nat)>
  {
    match caps
    case None => None
    case Some(c) => FirstFrom(c, 1, capsLen)
  }

  lemma {:induction false} FirstFromLowest(c: Captures, i: nat, n: nat)
    requires 1 <= i
    ensures FirstFrom(c, i, n).None? <==> forall k :: i <= k <= n ==> Get(c, k).None?
    ensures FirstFrom(c, i, n).Some? ==>
      var (m, g) := FirstFrom(c, i, n).value;
      i <= g <= n && Get(c, g) == Some(m) && forall k :: i <= k < g ==> Get(c, k).None?
    decreases n + 1 - i
  {
    if i <= n && Get(c, i).None? {
      FirstFromLowest(c, i + 1, n);
    }
  }

  /**
   * Capture selection: nothing when there is no match or no group among
   * 1..capsLen is present; otherwise the lowest present group, so every
   * lower group is absent.
   */
  lemma FirstCaptureIsLowest(caps: Option<Captures>, capsLen: nat)
    ensures FirstCapture(caps, capsLen).None? <==>
      (caps.None? || forall k :: 1 <= k <= capsLen ==> Get(caps.value, k).None?)
    ensures FirstCapture(caps, capsLen).Some? ==>
      var (m, g) := FirstCapture(caps, capsLen).value;
      1 <= g <= capsLen && Get(caps.value, g) == Some(m) &&
      forall k :: 1 <= k < g ==> Get(caps.value, k).None?
  {
    if caps.Some? {
      FirstFromLowest(caps.value, 1, capsLen);
    }
  }

  /**
   * The search bound does not matter beyond the groups a match has: with at
   * most k groups reported, searching up to any n >= k finds what searching
   * up to k finds. This is why passing the count of all outcomes (parsed or
   * not) instead of the number of groups is harmless.
   */
  lemma {:induction false} FirstFromBeyondGroups(c: Captures, i: nat, k: nat, n: nat)
    requires |c| <= k + 1 && k <= n
    ensures FirstFrom(c, i, n) == FirstFrom(c, i, k)
    decreases n + 1 - i
  {
    if i <= n && Get(c, i).None? {
      FirstFromBeyondGroups(c, i + 1, k, n);
    }
  }

  /** A capture found in one readable span: where the span starts, what matched, which group. */
  datatype Hit = Hit(source: string, spanStart: nat, capture: Match, group: nat)

  /** The hit of one span: none if its text cannot be read or no group matched. */
  function SpanHit(regex: Regex, capsLen: nat, source: string, sp: StringPosition): seq<Hit>
  {
    match sp.inner
    case Err(_) => []
    case Ok(text) =>
      match FirstCapture(regex(text), capsLen)
      case None => []
      case Some((m, g)) => [Hit(source, sp.start, m, g)]
  }

  /** The hit of each span, in span order. */
  function SpanHitList(regex: Regex, capsLen: nat, source: string, spans: seq<StringPosition>): (r: seq<seq<Hit>>)
    ensures |r| == |spans|
    ensures forall i :: 0 <= i < |spans| ==> r[i] == SpanHit(regex, capsLen, source, spans[i])
  {
    seq(|spans|, i requires 0 <= i < |spans| => SpanHit(regex, capsLen, source, spans[i]))
  }

  /** The hits of a note's spans, in span order. */
  function SpanHits(regex: Regex, capsLen: nat, source: string, spans: seq<StringPosition>): seq<Hit>
  {
    Flatten(SpanHitList(regex, capsLen, source, spans))
  }

  /** The hits of one outcome: those of its spans if it parsed, none otherwise. */
  function OutcomeHits(regex: Regex, capsLen: nat, o: ParseOutcome): seq<Hit>
  {
    match o
    case Ok(f) => SpanHits(regex, capsLen, f.path, f.stringNodes)
    case Err(_) => []
  }

  /** The hits of each outcome, in corpus order. */
  function OutcomeHitList(regex: Regex, capsLen: nat, files: seq<ParseOutcome>): (r: seq<seq<Hit>>)
    ensures |r| == |files|
    ensures forall i :: 0 <= i < |files| ==> r[i] == OutcomeHits(regex, capsLen, files[i])
  {
    seq(|files|, i requires 0 <= i < |files| => OutcomeHits(regex, capsLen, files[i]))
  }

  /** The hits of a corpus, in note-then-span order. */
  function FileHits(regex: Regex, capsLen: nat, files: seq<ParseOutcome>): seq<Hit>
  {
    Flatten(OutcomeHitList(regex, capsLen, files))
  }

  /** Every hit's group has an entry in the table. */
  predicate Resolvable(hits: seq<Hit>, groups: map<nat, string>)
  {
    forall h :: h in hits ==> h.group in groups
  }

  /** The regex reports no more groups than the combined pattern has: one per parsed note. */
  ghost predicate GroupsBounded(regex: Regex, k: nat)
  {
    forall t :: regex(t).Some? ==> |regex(t).value| <= k + 1
  }

  /** The link of a hit, given its resolved target. */
  function MakeLink(h: Hit, target: string): JsLink
  {
    var start := h.spanStart + h.capture.start;
    JsLink(h.source, target, h.capture.text, start, start + |h.capture.text|)
  }

  /** The links of resolvable hits, in the same order. */
  function Links(hits: seq<Hit>, groups: map<nat, string>): seq<JsLink>
    requires Resolvable(hits, groups)
  {
    if hits == [] then []
    else
      var h := hits[|hits| - 1];
      Links(hits[..|hits| - 1], groups) + [MakeLink(h, groups[h.group])]
  }

  /** `links.retain(|link| link.source != link.target)`. */
  function DropSelfLinks(links: seq<JsLink>): seq<JsLink>
  {
    if links == [] then []
    else
      var l := links[|links| - 1];
      DropSelfLinks(links[..|links| - 1]) + (if l.source != l.target then [l] else [])
  }

  /** The final filter: unchanged when self-links are wanted. */
  function Retain(links: seq<JsLink>, linkToSelf: bool): seq<JsLink>
  {
    if linkToSelf then links else DropSelfLinks(links)
  }

  /** The result of `get_links(caseInsensitive, linkToSelf)` on a corpus. */
  function GetLinksResult(files: seq<ParseOutcome>, caseInsensitive: bool, linkToSelf: bool,
                          escape: Escape, build: Builder): Result<seq<JsLink>, Panic>
  {
    match build(CombinedPattern(files, escape), caseInsensitive)
    case None => Err(InvalidRegex)
    case Some(regex) =>
      var hits := FileHits(regex, |files|, files);
      var groups := GroupTable(files);
      if Resolvable(hits, groups) then Ok(Retain(Links(hits, groups), linkToSelf))
      else Err(ExpectedGroup)
  }

  // ----- order and locality of the scan

  lemma SpanHitsAppend(regex: Regex, n: nat, src: string, a: seq<StringPosition>, b: seq<StringPosition>)
    ensures SpanHits(regex, n, src, a + b) == SpanHits(regex, n, src, a) + SpanHits(regex, n, src, b)
  {
    assert SpanHitList(regex, n, src, a + b) == SpanHitList(regex, n, src, a) + SpanHitList(regex, n, src, b);
    FlattenAppend(SpanHitList(regex, n, src, a), SpanHitList(regex, n, src, b));
  }

  /** The scan is order-preserving: a corpus's hits are those of its parts, concatenated. */
  lemma FileHitsAppend(regex: Regex, n: nat, a: seq<ParseOutcome>, b: seq<ParseOutcome>)
    ensures FileHits(regex, n, a + b) == FileHits(regex, n, a) + FileHits(regex, n, b)
  {
    assert OutcomeHitList(regex, n, a + b) == OutcomeHitList(regex, n, a) + OutcomeHitList(regex, n, b);
    FlattenAppend(OutcomeHitList(regex, n, a), OutcomeHitList(regex, n, b));
  }

  /** At most one hit per span. */
  lemma AtMostOneHitPerSpan(regex: Regex, n: nat, src: string, spans: seq<StringPosition>)
    ensures |SpanHits(regex, n, src, spans)| <= |spans|
  {
    FlattenLength(SpanHitList(regex, n, src, spans));
  }

  /** A span whose text cannot be read contributes nothing; the note's other spans still scan. */
  lemma UnreadableSpanSkipped(regex: Regex, n: nat, src: string, spans: seq<StringPosition>, j: nat)
    requires j < |spans| && spans[j].inner.Err?
    ensures SpanHits(regex, n, src, spans)
      == SpanHits(regex, n, src, spans[..j]) + SpanHits(regex, n, src, spans[j + 1..])
  {
    assert spans == spans[..j] + [spans[j]] + spans[j + 1..];
    SpanHitsAppend(regex, n, src, spans[..j] + [spans[j]], spans[j + 1..]);
    SpanHitsAppend(regex, n, src, spans[..j], [spans[j]]);
    var none: seq<seq<Hit>> := [[]];
    assert SpanHitList(regex, n, src, [spans[j]]) == none;
    assert none[..0] == [];
  }

  lemma NoHitsFromFailure(regex: Regex, n: nat, e: Error)
    ensures FileHits(regex, n, [Err(e)]) == []
  {
    var failed: seq<ParseOutcome> := [Err(e)];
    var none: seq<seq<Hit>> := [[]];
    assert OutcomeHitList(regex, n, failed) == none;
    assert none[..0] == [];
  }

  /** A note that failed to parse contributes no hits; the notes around it are unaffected. */
  lemma FailedFileSkipped(regex: Regex, n: nat, a: seq<ParseOutcome>, e: Error, b: seq<ParseOutcome>)
    ensures FileHits(regex, n, a + [Err(e)] + b) == FileHits(regex, n, a) + FileHits(regex, n, b)
  {
    NoHitsFromFailure(regex, n, e);
    FileHitsAppend(regex, n, a + [Err(e)], b);
    FileHitsAppend(regex, n, a, [Err(e)]);
  }

  // ----- where hits come from

  /** A hit of a note's spans names that note and a present group among 1..n (at most k if bounded). */
  lemma SpanHitsOrigin(regex: Regex, n: nat, k: nat, src: string, spans: seq<StringPosition>, h: Hit)
    requires h in SpanHits(regex, n, src, spans)
    ensures h.source == src && 1 <= h.group <= n
    ensures GroupsBounded(regex, k) ==> h.group <= k
  {
    var hitList := SpanHitList(regex, n, src, spans);
    FlattenMember(hitList, h);
    var j :| 0 <= j < |hitList| && h in hitList[j];
    var sp := spans[j];
    FirstCaptureIsLowest(regex(sp.inner.value), n);
  }

  /**
   * Every hit comes from a readable span of a parsed note, names that note as
   * its source and a group among 1..n (n the search bound) that is present in
   * the span's match; when the regex never reports more than k groups, the
   * group is among 1..k.
   */
  lemma FileHitsOrigin(regex: Regex, n: nat, k: nat, files: seq<ParseOutcome>, h: Hit)
    requires h in FileHits(regex, n, files)
    ensures 1 <= h.group <= n
    ensures GroupsBounded(regex, k) ==> h.group <= k
    ensures exists f :: f in ParsedFiles(files) && h.source == f.path
  {
    var outcomes := OutcomeHitList(regex, n, files);
    FlattenMember(outcomes, h);
    var i :| 0 <= i < |outcomes| && h in outcomes[i];
    var f := files[i].value;
    SpanHitsOrigin(regex, n, k, f.path, f.stringNodes, h);
    ParsedFilesMember(files, f);
  }

  lemma SpanHitsBound(regex: Regex, n: nat, n': nat, k: nat, src: string, spans: seq<StringPosition>)
    requires GroupsBounded(regex, k)
    requires k <= n && k <= n'
    ensures SpanHits(regex, n, src, spans) == SpanHits(regex, n', src, spans)
  {
    forall j | 0 <= j < |spans|
      ensures SpanHit(regex, n, src, spans[j]) == SpanHit(regex, n', src, spans[j])
    {
      var sp := spans[j];
      if sp.inner.Ok? && regex(sp.inner.value).Some? {
        var c := regex(sp.inner.value).value;
        FirstFromBeyondGroups(c, 1, k, n);
        FirstFromBeyondGroups(c, 1, k, n');
      }
    }
    assert SpanHitList(regex, n, src, spans) == SpanHitList(regex, n', src, spans);
  }

  /**
   * When the regex reports at most k groups, the search bound passed to the
   * capture selection does not change the hits, as long as it is at least k.
   */
  lemma FileHitsBound(regex: Regex, n: nat, n': nat, k: nat, files: seq<ParseOutcome>)
    requires GroupsBounded(regex, k)
    requires k <= n && k <= n'
    ensures FileHits(regex, n, files) == FileHits(regex, n', files)
  {
    forall i | 0 <= i < |files|
      ensures OutcomeHits(regex, n, files[i]) == OutcomeHits(regex, n', files[i])
    {
      if files[i].Ok? {
        SpanHitsBound(regex, n, n', k, files[i].value.path, files[i].value.stringNodes);
      }
    }
    assert OutcomeHitList(regex, n, files) == OutcomeHitList(regex, n', files);
  }

  // ----- the links

  /**
   * Every link carries its hit's fields: the scanned note as source, the
   * table's path for the group as target, the captured text, the absolute
   * start (span start plus offset in the span) and an end exactly the text's
   * length further on.
   */
  lemma {:induction false} LinkFields(hits: seq<Hit>, groups: map<nat, string>)
    requires Resolvable(hits, groups)
    ensures |Links(hits, groups)| == |hits|
    ensures forall i :: 0 <= i < |hits| ==>
      var l, h := Links(hits, groups)[i], hits[i];
      && l.source == h.source
      && l.target == groups[h.group]
      && l.linkText == h.capture.text
      && l.start == h.spanStart + h.capture.start
      && l.end - l.start == |l.linkText|
  {
    if hits != [] {
      LinkFields(hits[..|hits| - 1], groups);
    }
  }

  lemma {:induction false} DropSelfLinksAppend(a: seq<JsLink>, b: seq<JsLink>)
    ensures DropSelfLinks(a + b) == DropSelfLinks(a) + DropSelfLinks(b)
    decreases |b|
  {
    if b == [] {
      assert a + b == a;
    } else {
      var b' := b[..|b| - 1];
      assert (a + b)[..|a + b| - 1] == a + b';
      DropSelfLinksAppend(a, b');
    }
  }

  /**
   * The self-link filter removes exactly the links whose source is their
   * target: a link survives iff it was there and is not a self-link.
   * Together with DropSelfLinksAppend this fixes the order of the survivors.
   */
  lemma {:induction false} DropSelfLinksMember(links: seq<JsLink>, l: JsLink)
    ensures l in DropSelfLinks(links) <==> l in links && l.source != l.target
  {
    if links != [] {
      var init := links[..|links| - 1];
      DropSelfLinksMember(init, l);
      assert links == init + [links[|links| - 1]];
    }
  }

  /** The two settings of `linkToSelf` differ only by the self-link filter. */
  lemma LinkToSelfOnlyFilters(files: seq<ParseOutcome>, caseInsensitive: bool, escape: Escape, build: Builder)
    ensures GetLinksResult(files, caseInsensitive, false, escape, build).Ok? <==>
      GetLinksResult(files, caseInsensitive, true, escape, build).Ok?
    ensures GetLinksResult(files, caseInsensitive, true, escape, build).Ok? ==>
      GetLinksResult(files, caseInsensitive, false, escape, build).value
        == DropSelfLinks(GetLinksResult(files, caseInsensitive, true, escape, build).value)
  {
  }

  /**
   * The `expect("expected group")` never fires: when the compiled pattern
   * reports at most one group per parsed note, every selected group has a
   * table entry, so `get_links` fails only if the pattern does not compile.
   */
  lemma NoMissingGroup(files: seq<ParseOutcome>, caseInsensitive: bool, linkToSelf: bool, escape: Escape, build: Builder)
    requires var r := build(CombinedPattern(files, escape), caseInsensitive);
      r.Some? ==> GroupsBounded(r.value, |ParsedFiles(files)|)
    ensures GetLinksResult(files, caseInsensitive, linkToSelf, escape, build).Err? <==>
      build(CombinedPattern(files, escape), caseInsensitive).None?
  {
    var r := build(CombinedPattern(files, escape), caseInsensitive);
    if r.Some? {
      var k := |ParsedFiles(files)|;
      forall h | h in FileHits(r.value, |files|, files) ensures h.group in GroupTable(files) {
        FileHitsOrigin(r.value, |files|, k, files, h);
      }
    }
  }

  /**
   * Every emitted link names a parsed note as its source and the path of a
   * group as its target, ends its text's length after its start, and is no
   * self-link unless self-links were asked for.
   */
  lemma EmittedLinks(files: seq<ParseOutcome>, caseInsensitive: bool, linkToSelf: bool,
                     escape: Escape, build: Builder, l: JsLink)
    requires GetLinksResult(files, caseInsensitive, linkToSelf, escape, build).Ok?
    requires l in GetLinksResult(files, caseInsensitive, linkToSelf, escape, build).value
    ensures l.end - l.start == |l.linkText|
    ensures exists f :: f in ParsedFiles(files) && f.path == l.source
    ensures l.target in GroupTable(files).Values
    ensures !linkToSelf ==> l.source != l.target
  {
    var regex := build(CombinedPattern(files, escape), caseInsensitive).value;
    var hits := FileHits(regex, |files|, files);
    var groups := GroupTable(files);
    var links := Links(hits, groups);
    if !linkToSelf {
      DropSelfLinksMember(links, l);
    }
    assert l in links;
    LinkFields(hits, groups);
    var i :| 0 <= i < |links| && links[i] == l;
    FileHitsOrigin(regex, |files|, 0, files, hits[i]);
  }

  /** The result depends on the corpus only through its pattern, its group table and its hits. */
  lemma ResultCongruence(files: seq<ParseOutcome>, files': seq<ParseOutcome>, caseInsensitive: bool,
                         linkToSelf: bool, escape: Escape, build: Builder)
    requires CombinedPattern(files, escape) == CombinedPattern(files', escape)
    requires GroupTable(files) == GroupTable(files')
    requires var r := build(CombinedPattern(files, escape), caseInsensitive);
      r.Some? ==> FileHits(r.value, |files|, files) == FileHits(r.value, |files'|, files')
    ensures GetLinksResult(files, caseInsensitive, linkToSelf, escape, build)
      == GetLinksResult(files', caseInsensitive, linkToSelf, escape, build)
  {
  }

  /**
   * Partial-failure isolation: a note that failed to parse changes nothing
   * about the links of the others. Its outcome still counts in the search
   * bound handed to the capture selection, which is harmless as long as the
   * regex reports no more groups than there are parsed notes.
   */
  lemma FailureIsolation(a: seq<ParseOutcome>, e: Error, b: seq<ParseOutcome>, caseInsensitive: bool,
                         linkToSelf: bool, escape: Escape, build: Builder)
    requires var r := build(CombinedPattern(a + b, escape), caseInsensitive);
      r.Some? ==> GroupsBounded(r.value, |ParsedFiles(a + b)|)
    ensures GetLinksResult(a + [Err(e)] + b, caseInsensitive, linkToSelf, escape, build)
      == GetLinksResult(a + b, caseInsensitive, linkToSelf, escape, build)
  {
    var failed: seq<ParseOutcome> := [Err(e)];
    var files := a + failed + b;
    ParsedFilesSkipFailed(a, e, b);
    assert CombinedPattern(files, escape) == CombinedPattern(a + b, escape);
    assert GroupTable(files) == GroupTable(a + b);
    var r := build(CombinedPattern(a + b, escape), caseInsensitive);
    if r.Some? {
      var k := |ParsedFiles(a + b)|;
      ParsedFilesLength(a + b);
      FailedFileSkipped(r.value, |files|, a, e, b);
      FileHitsAppend(r.value, |files|, a, b);
      FileHitsBound(r.value, |files|, |a + b|, k, a + b);
    }
    ResultCongruence(files, a + b, caseInsensitive, linkToSelf, escape, build);
  }

  // ----- steps of the scanning loops

  /** The hits of the first j + 1 spans: those of the first j, then the (j+1)-th span's. */
  lemma SpanHitsSnoc(regex: Regex, n: nat, src: string, spans: seq<StringPosition>, j: nat)
    requires j < |spans|
    ensures SpanHits(regex, n, src, spans[..j + 1])
      == SpanHits(regex, n, src, spans[..j]) + SpanHit(regex, n, src, spans[j])
  {
    assert spans[..j + 1] == spans[..j] + [spans[j]];
    SpanHitsAppend(regex, n, src, spans[..j], [spans[j]]);
    var single := SpanHitList(regex, n, src, [spans[j]]);
    assert single == [SpanHit(regex, n, src, spans[j])];
    FlattenSingle(SpanHit(regex, n, src, spans[j]));
  }

  /** The hits of the first i + 1 outcomes: those of the first i, then the (i+1)-th outcome's. */
  lemma FileHitsSnoc(regex: Regex, n: nat, files: seq<ParseOutcome>, i: nat)
    requires i < |files|
    ensures FileHits(regex, n, files[..i + 1])
      == FileHits(regex, n, files[..i]) + OutcomeHits(regex, n, files[i])
  {
    assert files[..i + 1] == files[..i] + [files[i]];
    FileHitsAppend(regex, n, files[..i], [files[i]]);
    var single := OutcomeHitList(regex, n, [files[i]]);
    assert single == [OutcomeHits(regex, n, files[i])];
    FlattenSingle(OutcomeHits(regex, n, files[i]));
  }

  /** Links distribute over concatenation of hit sequences. */
  lemma {:induction false} LinksAppend(a: seq<Hit>, b: seq<Hit>, groups: map<nat, string>)
    requires Resolvable(a, groups) && Resolvable(b, groups)
    ensures Resolvable(a + b, groups)
    ensures Links(a + b, groups) == Links(a, groups) + Links(b, groups)
    decreases |b|
  {
    if b == [] {
      assert a + b == a;
    } else {
      var b' := b[..|b| - 1];
      var ab := a + b;
      assert ab[..|ab| - 1] == a + b' && ab[|ab| - 1] == b[|b| - 1];
      LinksAppend(a, b', groups);
    }
  }

  /** One span further: the links so far, then the links of that span's hit. */
  lemma SpanStep(regex: Regex, n: nat, src: string, spans: seq<StringPosition>, j: nat, groups: map<nat, string>)
    requires j < |spans|
    requires Resolvable(SpanHits(regex, n, src, spans[..j]), groups)
    requires Resolvable(SpanHit(regex, n, src, spans[j]), groups)
    ensures Resolvable(SpanHits(regex, n, src, spans[..j + 1]), groups)
    ensures Links(SpanHits(regex, n, src, spans[..j + 1]), groups)
      == Links(SpanHits(regex, n, src, spans[..j]), groups) + Links(SpanHit(regex, n, src, spans[j]), groups)
  {
    SpanHitsSnoc(regex, n, src, spans, j);
    LinksAppend(SpanHits(regex, n, src, spans[..j]), SpanHit(regex, n, src, spans[j]), groups);
  }

  /** A span whose hit has no table entry makes the whole note unresolvable. */
  lemma SpanUnresolvable(regex: Regex, n: nat, src: string, spans: seq<StringPosition>, j: nat, groups: map<nat, string>)
    requires j < |spans|
    requires !Resolvable(SpanHit(regex, n, src, spans[j]), groups)
    ensures !Resolvable(SpanHits(regex, n, src, spans), groups)
  {
    SpanHitsSnoc(regex, n, src, spans, j);
    assert spans == spans[..j + 1] + spans[j + 1..];
    SpanHitsAppend(regex, n, src, spans[..j + 1], spans[j + 1..]);
  }

  /** One outcome further: the links so far, then the links of that outcome's hits. */
  lemma FileStep(regex: Regex, n: nat, files: seq<ParseOutcome>, i: nat, groups: map<nat, string>)
    requires i < |files|
    requires Resolvable(FileHits(regex, n, files[..i]), groups)
    requires Resolvable(OutcomeHits(regex, n, files[i]), groups)
    ensures Resolvable(FileHits(regex, n, files[..i + 1]), groups)
    ensures Links(FileHits(regex, n, files[..i + 1]), groups)
      == Links(FileHits(regex, n, files[..i]), groups) + Links(OutcomeHits(regex, n, files[i]), groups)
  {
    FileHitsSnoc(regex, n, files, i);
    LinksAppend(FileHits(regex, n, files[..i]), OutcomeHits(regex, n, files[i]), groups);
  }

  /** An outcome whose hits are not all resolvable makes the whole corpus unresolvable. */
  lemma FileUnresolvable(regex: Regex, n: nat, files: seq<ParseOutcome>, i: nat, groups: map<nat, string>)
    requires i < |files|
    requires !Resolvable(OutcomeHits(regex, n, files[i]), groups)
    ensures !Resolvable(FileHits(regex, n, files), groups)
  {
    FileHitsSnoc(regex, n, files, i);
    assert files == files[..i + 1] + files[i + 1..];
    FileHitsAppend(regex, n, files[..i + 1], files[i + 1..]);
  }
}
