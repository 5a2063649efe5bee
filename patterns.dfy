/**
 * The pattern compiler of `JsLinker::get_links`: each parsed note's identity
 * list, its capturing group, the combined pattern and the table from group
 * number back to note path.
 */
module Patterns {
  import opened Wrappers
  import opened Seqs
  import opened Parser
  import opened Regex
  import opened Corpus

  /** The aliases a note contributes: none when extracting them failed. */
  function DeclaredAliases(aliases: Result<seq<string>, Error>): seq<string>
  {
    match aliases
    case Ok(a) => a
    case Err(_) => []
  }

  /** A note's identity list: its title, then its declared aliases in order. */
  function Identities(f: MDFile): seq<string>
  {
    [f.title] + DeclaredAliases(f.aliases)
  }

  /** One alternative of a group: the escaped identity between word boundaries. */
  function Wrap(cleaned: string): string
  {
    "(?:\\b" + cleaned + "\\b)"
  }

  /** `join("|")`: the parts separated by `|`, the empty string for no parts. */
  function Join(parts: seq<string>): string
  {
    if |parts| == 0 then ""
    else if |parts| == 1 then parts[0]
    else Join(parts[..|parts| - 1]) + "|" + parts[|parts| - 1]
  }

  /** What the group-building loop has pushed for `cleaned`: each alternative followed by `|`. */
  function Terminated(cleaned: seq<string>): string
  {
    if cleaned == [] then ""
    else Terminated(cleaned[..|cleaned| - 1]) + Wrap(cleaned[|cleaned| - 1]) + "|"
  }

  /** One capturing group holding the alternatives of the escaped identities, in order. */
  function GroupPattern(cleaned: seq<string>): string
  {
    "(" + Join(Map(Wrap, cleaned)) + ")"
  }

  /** The capturing group of one parsed note. */
  function FileGroupStr(f: MDFile, escape: Escape): string
  {
    GroupPattern(Map(escape, Identities(f)))
  }

  /** The capturing groups of a sequence of parsed notes, in order. */
  function GroupStrs(fs: seq<MDFile>, escape: Escape): (r: seq<string>)
    ensures |r| == |fs|
    ensures forall i :: 0 <= i < |fs| ==> r[i] == FileGroupStr(fs[i], escape)
  {
    seq(|fs|, i requires 0 <= i < |fs| => FileGroupStr(fs[i], escape))
  }

  /** `file_regex_strs`: one group per parsed note, in corpus order. */
  function FileRegexStrs(files: seq<ParseOutcome>, escape: Escape): seq<string>
  {
    GroupStrs(ParsedFiles(files), escape)
  }

  /** The path of the g-th note of `p`, counting from 1. */
  function GroupPath(p: seq<MDFile>, g: nat): string
    requires 1 <= g <= |p|
  {
    p[g - 1].path
  }

  /** `file_groups`: group number g (from 1) is the g-th parsed note's path. */
  function GroupTable(files: seq<ParseOutcome>): map<nat, string>
  {
    var p := ParsedFiles(files);
    map g | 1 <= g <= |p| :: GroupPath(p, g)
  }

  /** The combined pattern: every parsed note's group, joined by `|` in corpus order. */
  function CombinedPattern(files: seq<ParseOutcome>, escape: Escape): string
  {
    Join(FileRegexStrs(files, escape))
  }

  /**
   * Building a group pushes a trailing `|` after every alternative; because
   * there is at least one alternative (the title), popping the last character
   * removes exactly that `|` and leaves the `|`-joined alternatives.
   */
  lemma {:induction false} TerminatedIsJoinThenBar(cleaned: seq<string>)
    requires |cleaned| > 0
    ensures Terminated(cleaned) == Join(Map(Wrap, cleaned)) + "|"
  {
    var n := |cleaned|;
    var init := cleaned[..n - 1];
    assert Map(Wrap, cleaned)[..n - 1] == Map(Wrap, init);
    if n > 1 {
      TerminatedIsJoinThenBar(init);
    } else {
      assert Terminated(init) == "";
    }
  }

  /** The first part always opens the joined string. */
  lemma {:induction false} JoinStartsWithFirst(parts: seq<string>)
    requires |parts| > 0
    ensures parts[0] <= Join(parts)
  {
    if |parts| > 1 {
      var init := parts[..|parts| - 1];
      JoinStartsWithFirst(init);
      assert Join(parts) == Join(init) + ("|" + parts[|parts| - 1]);
    }
  }

  /** The title is always present and always the first alternative of its note's group. */
  lemma TitleIsFirstAlternative(f: MDFile, escape: Escape)
    ensures "(" + Wrap(escape(f.title)) <= FileGroupStr(f, escape)
  {
    var parts := Map(Wrap, Map(escape, Identities(f)));
    JoinStartsWithFirst(parts);
    assert parts[0] == Wrap(escape(f.title));
  }

  /** When alias extraction fails, the note's group holds the title alone. */
  lemma AliasErrorLeavesTitleOnly(f: MDFile, escape: Escape)
    requires f.aliases.Err?
    ensures FileGroupStr(f, escape) == "(" + Wrap(escape(f.title)) + ")"
  {
    assert Identities(f) == [f.title];
  }

  /**
   * The group table and the combined pattern agree: the table's keys are
   * exactly 1..k for the k groups of the pattern, and group g's table entry
   * and group g's text come from the same parsed note.
   */
  lemma GroupTableAligned(files: seq<ParseOutcome>, escape: Escape)
    ensures forall g :: g in GroupTable(files) <==> 1 <= g <= |FileRegexStrs(files, escape)|
    ensures forall g :: g in GroupTable(files) ==>
      exists f :: (f in ParsedFiles(files) && GroupTable(files)[g] == f.path &&
        FileRegexStrs(files, escape)[g - 1] == FileGroupStr(f, escape))
  {
    var p := ParsedFiles(files);
    forall g | g in GroupTable(files)
      ensures exists f :: (f in p && GroupTable(files)[g] == f.path &&
        FileRegexStrs(files, escape)[g - 1] == FileGroupStr(f, escape))
    {
      var f := p[g - 1];
      assert f in p;
    }
  }

  /**
   * Group numbers count parsed notes only: the parsed note at corpus position j
   * gets group 1 + (number of parsed notes before it), and both the table and
   * the pattern's group of that number are its own.
   */
  lemma GroupOfFile(files: seq<ParseOutcome>, j: nat, escape: Escape)
    requires j < |files| && files[j].Ok?
    ensures var g := |ParsedFiles(files[..j])| + 1;
      && g in GroupTable(files)
      && GroupTable(files)[g] == files[j].value.path
      && g <= |FileRegexStrs(files, escape)|
      && FileRegexStrs(files, escape)[g - 1] == FileGroupStr(files[j].value, escape)
  {
    var before, rest := files[..j], files[j + 1..];
    assert files == before + [files[j]] + rest;
    ParsedFilesAppend(before + [files[j]], rest);
    ParsedFilesAppend(before, [files[j]]);
    assert ParsedFiles([files[j]]) == [files[j].value] by {
      assert [files[j]][..0] == [];
    }
    assert ParsedFiles(files)[|ParsedFiles(before)|] == files[j].value;
  }

  /** One step of the loop that builds the group strings and the table. */
  lemma GroupStep(files: seq<ParseOutcome>, i: nat, escape: Escape)
    requires i < |files|
    ensures files[i].Err? ==> ParsedFiles(files[..i + 1]) == ParsedFiles(files[..i])
    ensures files[i].Ok? ==> ParsedFiles(files[..i + 1]) == ParsedFiles(files[..i]) + [files[i].value]
  {
    assert files[..i + 1][..i] == files[..i];
  }

  /** Appending one parsed note appends its group string. */
  lemma GroupStrsAppend(p: seq<MDFile>, f: MDFile, escape: Escape)
    ensures GroupStrs(p + [f], escape) == GroupStrs(p, escape) + [FileGroupStr(f, escape)]
  {
    var q := p + [f];
    assert forall i :: 0 <= i < |p| ==> q[i] == p[i];
  }

  /** Appending one parsed note adds the next group number, mapped to its path. */
  lemma GroupTableAppend(p: seq<MDFile>, f: MDFile)
    ensures (map g | 1 <= g <= |p + [f]| :: GroupPath(p + [f], g))
      == (map g | 1 <= g <= |p| :: GroupPath(p, g))[|p| + 1 := f.path]
  {
    var q := p + [f];
    var m1 := map g | 1 <= g <= |q| :: GroupPath(q, g);
    var m0 := (map g | 1 <= g <= |p| :: GroupPath(p, g))[|p| + 1 := f.path];
    forall g | g in m1 ensures g in m0 && m1[g] == m0[g] {
      if g <= |p| {
        assert q[g - 1] == p[g - 1];
      }
    }
    assert m1.Keys == m0.Keys;
  }
}
