/** The text transformation that removes a comment prefix from a block of a file. */
module UncommentCode {
  import opened Strings
  import opened Wrappers

  /** The line scanner's limit on a line, its line feed included. */
  const MAX_TOKEN := 64 * 1024

  datatype Error = TargetNotFound

  predicate EndsInCR(line: string) {
    line != "" && line[|line| - 1] == '\r'
  }

  function DropCR(line: string): string {
    if EndsInCR(line) then line[..|line| - 1] else line
  }

  function TrimPrefix(s: string, prefix: string): string {
    if HasPrefix(s, prefix) then s[|prefix|..] else s
  }

  /**
   * The lines the scanner yields: ended by line feeds, without a final carriage return, none for an empty rest,
   * and nothing more from the first line that is too long.
   */
  function ScanLines(s: string): seq<string>
    decreases |s|
  {
    if s == "" then []
    else
      match IndexFrom(s, "\n", 0)
      case None => if |s| >= MAX_TOKEN then [] else [DropCR(s)]
      case Some(i) => if i >= MAX_TOKEN then [] else [DropCR(s[..i])] + ScanLines(s[i + 1..])
  }

  function Join(lines: seq<string>): string {
    if lines == [] then "" else if |lines| == 1 then lines[0] else lines[0] + "\n" + Join(lines[1..])
  }

  function Trimmed(lines: seq<string>, prefix: string): (r: seq<string>)
    ensures |r| == |lines|
  {
    seq(|lines|, i requires 0 <= i < |lines| => TrimPrefix(lines[i], prefix))
  }

  function Dropped(lines: seq<string>): (r: seq<string>)
    ensures |r| == |lines|
  {
    seq(|lines|, i requires 0 <= i < |lines| => DropCR(lines[i]))
  }

  function Prefixed(lines: seq<string>, prefix: string): (r: seq<string>)
    ensures |r| == |lines|
  {
    seq(|lines|, i requires 0 <= i < |lines| => prefix + lines[i])
  }

  /** The file's new contents. */
  function Uncommented(content: string, target: string, prefix: string): Result<string, Error> {
    match IndexFrom(content, target, 0)
    case None => Err(TargetNotFound)
    case Some(i) =>
      var lines := ScanLines(target);
      if lines == [] then Ok(content)
      else Ok(content[..i] + Join(Trimmed(lines, prefix)) + content[i + |target|..])
  }

  class Scanner {
    var rest: string
    var text: string

    constructor (s: string)
      ensures rest == s
    {
      rest, text := s, "";
    }

    /** Advances to the next line, if there is one. */
    method Scan() returns (more: bool)
      modifies this
      ensures more <==> ScanLines(old(rest)) != []
      ensures more ==> [text] + ScanLines(rest) == ScanLines(old(rest)) && |ScanLines(rest)| < |ScanLines(old(rest))|
    {
      if rest == "" {
        return false;
      }
      var end := IndexFrom(rest, "\n", 0);
      if end.None? {
        more := |rest| < MAX_TOKEN;
        if more {
          text, rest := DropCR(rest), "";
        }
      } else {
        more := end.value < MAX_TOKEN;
        if more {
          text, rest := DropCR(rest[..end.value]), rest[end.value + 1..];
        }
      }
    }
  }

  /** Writes the current line and all later ones without the prefix, a line feed between any two. */
  method WriteTrimmed(written: string, scanner: Scanner, prefix: string) returns (out: string)
    modifies scanner
    ensures out == written + Join(Trimmed([old(scanner.text)] + ScanLines(old(scanner.rest)), prefix))
  {
    out := written;
    ghost var later := ScanLines(scanner.rest);
    ghost var all := written + Join(Trimmed([scanner.text] + later, prefix));
    while true
      invariant later == ScanLines(scanner.rest)
      invariant out + Join(Trimmed([scanner.text] + later, prefix)) == all
      decreases |later|
    {
      out := WriteFirst(out, scanner.text, later, prefix);
      var more := scanner.Scan();
      if !more {
        return;
      }
      out := out + "\n";
      later := ScanLines(scanner.rest);
    }
  }

  method WriteFirst(written: string, first: string, ghost later: seq<string>, prefix: string) returns (out: string)
    ensures written + Join(Trimmed([first] + later, prefix))
         == if later == [] then out else out + "\n" + Join(Trimmed(later, prefix))
  {
    TrimmedFirst(first, later, prefix);
    out := written + TrimPrefix(first, prefix);
    if later != [] {
      assert written + (TrimPrefix(first, prefix) + ("\n" + Join(Trimmed(later, prefix))))
          == out + "\n" + Join(Trimmed(later, prefix));
    }
  }

  method Uncomment(content: string, target: string, prefix: string) returns (r: Result<string, Error>)
    ensures r == Uncommented(content, target, prefix)
  {
    var idx := IndexFrom(content, target, 0);
    if idx.None? {
      return Err(TargetNotFound);
    }
    var scanner := new Scanner(target);
    var more := scanner.Scan();
    if !more {
      return Ok(content);
    }
    var out := WriteTrimmed(content[..idx.value], scanner, prefix);
    r := Ok(out + content[idx.value + |target|..]);
  }

  lemma JoinFirst(first: string, later: seq<string>)
    ensures Join([first] + later) == if later == [] then first else first + "\n" + Join(later)
  {
    assert ([first] + later)[1..] == later;
  }

  lemma JoinSize(first: string, later: seq<string>)
    ensures |Join([first] + later)| == |first| + if later == [] then 0 else 1 + |Join(later)|
  {
    JoinFirst(first, later);
  }

  lemma TrimmedFirst(first: string, later: seq<string>, prefix: string)
    ensures Join(Trimmed([first] + later, prefix))
         == TrimPrefix(first, prefix) + if later == [] then "" else "\n" + Join(Trimmed(later, prefix))
  {
    assert Trimmed([first] + later, prefix) == [TrimPrefix(first, prefix)] + Trimmed(later, prefix);
    JoinFirst(TrimPrefix(first, prefix), Trimmed(later, prefix));
  }

  /**
   * A target that does not occur is an error, and nothing else is. Otherwise all text outside the first occurrence
   * of the target stays as it is.
   */
  lemma OutsideUnchanged(content: string, target: string, prefix: string) returns (i: nat, block: string)
    ensures Uncommented(content, target, prefix) == Err(TargetNotFound) <==> !Contains(content, target)
    ensures Contains(content, target) ==>
              && OccursAt(content, target, i) && (forall j | 0 <= j < i :: !OccursAt(content, target, j))
              && Uncommented(content, target, prefix) == Ok(content[..i] + block + content[i + |target|..])
  {
    i, block := 0, target;
    match IndexFrom(content, target, 0)
    case None =>
    case Some(first) =>
      i := first;
      if ScanLines(target) == [] {
        assert content == content[..i] + target + content[i + |target|..];
      } else {
        block := Join(Trimmed(ScanLines(target), prefix));
      }
  }

  // Uncommenting undoes commenting.

  predicate OneLine(s: string) {
    forall i | 0 <= i < |s| :: s[i] != '\n'
  }

  /** The lines the scanner gets to: those before the first that is too long, but not a final empty line. */
  function Seen(lines: seq<string>): seq<string> {
    if lines == [] || |lines[0]| >= MAX_TOKEN || lines == [""] then []
    else [lines[0]] + Seen(lines[1..])
  }

  lemma NoLineFeed(line: string, i: int)
    requires OneLine(line)
    ensures !OccursAt(line, "\n", i)
  {
    if 0 <= i < |line| {
      assert line[i..i + 1] == [line[i]];
    }
  }

  lemma ScanLast(line: string)
    requires OneLine(line)
    ensures ScanLines(line) == if |line| >= MAX_TOKEN || line == "" then [] else [DropCR(line)]
  {
    var i := IndexFrom(line, "\n", 0);
    if i.Some? {
      NoLineFeed(line, i.value);
    }
  }

  lemma ScanFirst(line: string, more: string)
    requires OneLine(line)
    ensures ScanLines(line + "\n" + more) == if |line| >= MAX_TOKEN then [] else [DropCR(line)] + ScanLines(more)
  {
    var s := line + "\n" + more;
    assert OccursAt(s, "\n", |line|);
    var i := IndexFrom(s, "\n", 0).value;
    assert s[i..i + 1][0] == '\n';
    assert i == |line|;
    assert s[..i] == line && s[i + 1..] == more;
  }

  /** Scanning joined lines gives the lines it gets to back, but for carriage returns. */
  lemma {:induction false} ScanJoined(lines: seq<string>)
    requires forall i | 0 <= i < |lines| :: OneLine(lines[i])
    ensures ScanLines(Join(lines)) == Dropped(Seen(lines))
  {
    if lines != [] {
      var first, later := lines[0], lines[1..];
      assert lines == [first] + later;
      JoinFirst(first, later);
      SeenFirst(first, later);
      if later == [] {
        ScanLast(first);
      } else {
        ScanJoined(later);
        ScanFirst(first, Join(later));
      }
    }
  }

  lemma SeenFirst(first: string, later: seq<string>)
    ensures Dropped(Seen([first] + later))
         == if |first| >= MAX_TOKEN || (first == "" && later == []) then [] else [DropCR(first)] + Dropped(Seen(later))
  {
    assert ([first] + later)[1..] == later;
    assert Dropped([first] + Seen(later)) == [DropCR(first)] + Dropped(Seen(later));
  }

  /**
   * How a commented line comes back. An empty one behind a prefix that ends in a carriage return loses that, and
   * so keeps the rest of the prefix.
   */
  function Back(line: string, prefix: string): string {
    if line == "" && EndsInCR(prefix) then DropCR(prefix) else DropCR(line)
  }

  function Backed(lines: seq<string>, prefix: string): (r: seq<string>)
    ensures |r| == |lines|
  {
    seq(|lines|, i requires 0 <= i < |lines| => Back(lines[i], prefix))
  }

  lemma DropAndTrim(prefix: string, line: string)
    ensures TrimPrefix(DropCR(prefix + line), prefix) == Back(line, prefix)
  {
    var d := DropCR(prefix + line);
    if line == "" {
      assert prefix + line == prefix;
    } else {
      assert d == prefix + DropCR(line);
      assert d[..|prefix|] == prefix;
    }
  }

  /** The commented form of a block. */
  function Commented(lines: seq<string>, prefix: string): string {
    Join(Prefixed(lines, prefix))
  }

  /** Which lines come back: those before the first too long one, but not an empty last line that no prefix shows. */
  function Kept(lines: seq<string>, prefix: string): seq<string> {
    if lines == [] || !Fits(lines[0], prefix) || (lines == [""] && prefix == "") then []
    else [lines[0]] + Kept(lines[1..], prefix)
  }

  predicate Fits(line: string, prefix: string) {
    |prefix + line| < 65536
  }

  /** What takes the commented block's place: its kept lines, or the block as it is if there are none. */
  function InPlaceOf(lines: seq<string>, prefix: string): string {
    if Kept(lines, prefix) == [] then Commented(lines, prefix) else Join(Backed(Kept(lines, prefix), prefix))
  }

  /** Nothing before this block in `before + block + after` looks like it. */
  predicate First(before: string, block: string, after: string) {
    forall i | 0 <= i < |before| :: !OccursAt(before + block + after, block, i)
  }

  /**
   * What uncommenting a commented block gives: the text around it as it was, and in its place the lines up to
   * the first that is too long, with carriage returns before line feeds dropped.
   */
  lemma UncommentCommented(before: string, lines: seq<string>, after: string, prefix: string)
    requires lines != [] && OneLine(prefix) && forall i | 0 <= i < |lines| :: OneLine(lines[i])
    requires First(before, Commented(lines, prefix), after)
    ensures Uncommented(before + Commented(lines, prefix) + after, Commented(lines, prefix), prefix)
         == Ok(before + InPlaceOf(lines, prefix) + after)
  {
    var raw, target := Prefixed(lines, prefix), Commented(lines, prefix);
    FoundAt(before, target, after);
    ScanJoined(raw);
    SeenCommented(lines, prefix);
    TrimmedCommented(Kept(lines, prefix), prefix);
  }

  lemma FoundAt(before: string, target: string, after: string)
    requires First(before, target, after)
    ensures var content := before + target + after;
            && IndexFrom(content, target, 0) == Some(|before|)
            && content[..|before|] == before && content[|before| + |target|..] == after
  {
    var content := before + target + after;
    assert content[|before|..|before| + |target|] == target;
    assert OccursAt(content, target, |before|);
  }

  lemma TrimmedCommented(lines: seq<string>, prefix: string)
    ensures Trimmed(Dropped(Prefixed(lines, prefix)), prefix) == Backed(lines, prefix)
  {
    forall i | 0 <= i < |lines|
      ensures TrimPrefix(DropCR(prefix + lines[i]), prefix) == Back(lines[i], prefix)
    {
      DropAndTrim(prefix, lines[i]);
    }
  }

  lemma {:induction false} SeenCommented(lines: seq<string>, prefix: string)
    ensures Seen(Prefixed(lines, prefix)) == Prefixed(Kept(lines, prefix), prefix)
  {
    if lines != [] {
      SeenCommented(lines[1..], prefix);
      assert Prefixed(lines, prefix)[1..] == Prefixed(lines[1..], prefix);
      assert prefix + lines[0] == "" <==> prefix == "" && lines[0] == "";
    }
  }

  /** Lines without line feeds can be read back from the text they are joined to. */
  lemma {:induction false} JoinInjective(a: seq<string>, b: seq<string>)
    requires a != [] && b != [] && Join(a) == Join(b)
    requires (forall i | 0 <= i < |a| :: OneLine(a[i])) && forall i | 0 <= i < |b| :: OneLine(b[i])
    ensures a == b
  {
    assert a == [a[0]] + a[1..] && b == [b[0]] + b[1..];
    JoinFirst(a[0], a[1..]);
    JoinFirst(b[0], b[1..]);
    FirstLineIs(a[0], a[1..], b[0], b[1..]);
    if a[1..] != [] {
      JoinInjective(a[1..], b[1..]);
    }
  }

  lemma FirstLineIs(first: string, later: seq<string>, first': string, later': seq<string>)
    requires OneLine(first) && OneLine(first')
    requires (if later == [] then first else first + "\n" + Join(later))
          == (if later' == [] then first' else first' + "\n" + Join(later'))
    ensures first == first' && (later == [] <==> later' == []) && (later != [] ==> Join(later) == Join(later'))
  {
    var all := if later == [] then first else first + "\n" + Join(later);
    assert later != [] ==> all[|first|] == '\n' && all[|first| + 1..] == Join(later);
    assert later' != [] ==> all[|first'|] == '\n' && all[|first'| + 1..] == Join(later');
    assert all[..|first|] == first && all[..|first'|] == first';
    NotBefore(all, first', |first|);
    NotBefore(all, first, |first'|);
  }

  /** Where the text ends or has a line feed, a first line of it has ended. */
  lemma NotBefore(all: string, line: string, end: nat)
    requires OneLine(line) && |line| <= |all| && all[..|line|] == line
    requires end <= |all| && (end < |all| ==> all[end] == '\n')
    ensures |line| <= end
  {
    assert forall i | 0 <= i < |line| :: all[i] == all[..|line|][i] != '\n';
  }

  lemma {:induction false} CommentedLength(lines: seq<string>, prefix: string)
    requires lines != []
    ensures |Commented(lines, prefix)| >= |Join(lines)| + |prefix|
  {
    var first, later := lines[0], lines[1..];
    assert lines == [first] + later;
    assert Prefixed(lines, prefix) == [prefix + first] + Prefixed(later, prefix);
    JoinSize(first, later);
    JoinSize(prefix + first, Prefixed(later, prefix));
    if later != [] {
      CommentedLength(later, prefix);
    }
  }

  predicate AllFit(lines: seq<string>, prefix: string) {
    forall i | 0 <= i < |lines| :: Fits(lines[i], prefix)
  }

  /** The kept lines are the first ones, and all of them exactly if none is too long or hidden. */
  lemma {:induction false} KeptAre(lines: seq<string>, prefix: string)
    requires lines != []
    ensures |Kept(lines, prefix)| <= |lines| && Kept(lines, prefix) == lines[..|Kept(lines, prefix)|]
    ensures |Kept(lines, prefix)| == |lines| <==> AllFit(lines, prefix) && !(prefix == "" && lines[|lines| - 1] == "")
  {
    var later := lines[1..];
    if later != [] {
      KeptAre(later, prefix);
      assert later[|later| - 1] == lines[|lines| - 1];
      assert AllFit(lines, prefix) <==> Fits(lines[0], prefix) && AllFit(later, prefix) by {
        assert forall i | 0 <= i < |later| :: later[i] == lines[i + 1];
      }
    }
  }

  /** The line and the prefix have no carriage return that the scanner could drop. */
  predicate Undamaged(line: string, prefix: string) {
    !EndsInCR(line) && !(line == "" && EndsInCR(prefix) && |prefix| > 1)
  }

  /** The condition under which uncommenting restores a commented block. */
  predicate Restorable(lines: seq<string>, prefix: string)
    requires lines != []
  {
    if !Fits(lines[0], prefix) then prefix == ""
    else
      && AllFit(lines, prefix) && (forall i | 0 <= i < |lines| :: Undamaged(lines[i], prefix))
      && !(prefix == "" && |lines| > 1 && lines[|lines| - 1] == "")
  }

  /**
   * Uncommenting restores the block exactly when every commented line is within the scanner's limit, none of its
   * lines ends in a carriage return, none is empty behind a longer prefix that ends in one, and its last line, if
   * there are several, is not an empty line that an empty prefix hides. If already the first line is too long
   * nothing changes, which restores the block when the prefix is empty.
   */
  lemma RestoredIff(before: string, lines: seq<string>, after: string, prefix: string)
    requires lines != [] && OneLine(prefix) && forall i | 0 <= i < |lines| :: OneLine(lines[i])
    requires First(before, Commented(lines, prefix), after)
    ensures Uncommented(before + Commented(lines, prefix) + after, Commented(lines, prefix), prefix)
         == Ok(before + Join(lines) + after)
        <==> Restorable(lines, prefix)
  {
    UncommentCommented(before, lines, after, prefix);
    SameBetween(before, InPlaceOf(lines, prefix), Join(lines), after);
    RestoredBlockIff(lines, prefix);
  }

  lemma SameBetween(before: string, a: string, b: string, after: string)
    ensures before + a + after == before + b + after <==> a == b
  {
    if before + a + after == before + b + after {
      assert a == (before + a + after)[|before|..|before| + |a|];
      assert b == (before + b + after)[|before|..|before| + |b|];
    }
  }

  lemma RestoredBlockIff(lines: seq<string>, prefix: string)
    requires lines != [] && OneLine(prefix) && forall i | 0 <= i < |lines| :: OneLine(lines[i])
    ensures InPlaceOf(lines, prefix) == Join(lines) <==> Restorable(lines, prefix)
  {
    var kept := Kept(lines, prefix);
    KeptAre(lines, prefix);
    if kept == [] {
      NothingKept(lines, prefix);
    } else {
      BackedJoinsTo(kept, lines, prefix);
    }
  }

  lemma NothingKept(lines: seq<string>, prefix: string)
    requires lines != [] && Kept(lines, prefix) == []
    ensures Commented(lines, prefix) == Join(lines) <==> Restorable(lines, prefix)
  {
    CommentedLength(lines, prefix);
    if prefix == "" {
      assert forall i | 0 <= i < |lines| :: prefix + lines[i] == lines[i];
      assert Prefixed(lines, prefix) == lines;
    }
  }

  lemma BackedJoinsTo(kept: seq<string>, lines: seq<string>, prefix: string)
    requires 0 < |kept| <= |lines| && kept == lines[..|kept|]
    requires OneLine(prefix) && forall i | 0 <= i < |lines| :: OneLine(lines[i])
    ensures Join(Backed(kept, prefix)) == Join(lines)
        <==> |kept| == |lines| && forall i | 0 <= i < |lines| :: Undamaged(lines[i], prefix)
  {
    assert forall i | 0 <= i < |kept| :: kept[i] == lines[i];
    BackedIs(kept, lines, prefix);
    if Join(Backed(kept, prefix)) == Join(lines) {
      JoinInjective(Backed(kept, prefix), lines);
    }
  }

  lemma BackedIs(kept: seq<string>, lines: seq<string>, prefix: string)
    requires |kept| <= |lines| && OneLine(prefix)
    requires forall i | 0 <= i < |kept| :: kept[i] == lines[i] && OneLine(kept[i])
    ensures forall i | 0 <= i < |kept| :: OneLine(Backed(kept, prefix)[i])
    ensures Backed(kept, prefix) == lines
        <==> |kept| == |lines| && forall i | 0 <= i < |lines| :: Undamaged(lines[i], prefix)
  {
    forall i | 0 <= i < |kept|
      ensures OneLine(Back(kept[i], prefix)) && (Back(kept[i], prefix) == kept[i] <==> Undamaged(kept[i], prefix))
    {
    }
    if |kept| == |lines| && forall i | 0 <= i < |lines| :: Undamaged(lines[i], prefix) {
      assert forall i | 0 <= i < |lines| :: Backed(kept, prefix)[i] == lines[i];
    }
    if Backed(kept, prefix) == lines {
      assert forall i | 0 <= i < |kept| :: Back(kept[i], prefix) == kept[i];
    }
  }

  // Prefixes of several lines.

  lemma NotALineFeed(s: string, i: nat)
    requires i < |s| && !OccursAt(s, "\n", i)
    ensures s[i] != '\n'
  {
    assert s[i..i + 1] == [s[i]];
  }

  lemma {:induction false} ScannedOneLine(s: string)
    ensures forall i | 0 <= i < |ScanLines(s)| :: OneLine(ScanLines(s)[i])
    decreases |s|
  {
    var end := IndexFrom(s, "\n", 0);
    var line := if end.Some? then s[..end.value] else s;
    forall j | 0 <= j < |line|
      ensures line[j] != '\n'
    {
      NotALineFeed(s, j);
    }
    if end.Some? {
      ScannedOneLine(s[end.value + 1..]);
    }
  }

  lemma PrefixOneLine(line: string, prefix: string)
    requires OneLine(line) && HasPrefix(line, prefix)
    ensures OneLine(prefix)
  {
    assert forall j | 0 <= j < |prefix| :: prefix[j] == line[0..|prefix|][j] == line[j];
  }

  /** A prefix with a line feed in it is trimmed from no line: it does what the empty prefix does. */
  lemma LineFeedPrefix(content: string, target: string, prefix: string)
    requires !OneLine(prefix)
    ensures Uncommented(content, target, prefix) == Uncommented(content, target, "")
  {
    var lines := ScanLines(target);
    ScannedOneLine(target);
    forall i | 0 <= i < |lines|
      ensures TrimPrefix(lines[i], prefix) == lines[i] == TrimPrefix(lines[i], "")
    {
      if HasPrefix(lines[i], prefix) {
        PrefixOneLine(lines[i], prefix);
      }
    }
    assert Trimmed(lines, prefix) == Trimmed(lines, "");
  }

  /** A commented line with a carriage return at its end comes back without it. */
  lemma CarriageReturnLost()
    ensures Uncommented("#a\r", "#a\r", "#") == Ok("a")
  {
    var lines := ["a\r"];
    assert Commented(lines, "#") == "#a\r";
    UncommentCommented("", lines, "", "#");
    assert |"a\r"| == 2 && "a\r"[1] == '\r' && "a\r"[..1] == "a";
    assert Kept(lines, "#") == lines;
    assert Backed(lines, "#") == [DropCR("a\r")] == ["a"];
    assert "" + Commented(lines, "#") + "" == "#a\r" && "" + "a" + "" == "a";
  }

  /** A second line at the scanner's limit, and whatever follows it in the block, is deleted without an error. */
  lemma LongLineLost(long: string, rest: seq<string>)
    requires |long| >= 65536 && OneLine(long) && forall i | 0 <= i < |rest| :: OneLine(rest[i])
    ensures var block := Commented(["a", long] + rest, "#");
            Uncommented(block, block, "#") == Ok("a")
  {
    var lines := ["a", long] + rest;
    var block := Commented(lines, "#");
    assert lines[1..] == [long] + rest;
    UncommentCommented("", lines, "", "#");
    assert Kept(lines[1..], "#") == [];
    assert Kept(lines, "#") == ["a"] && Backed(["a"], "#") == ["a"];
    assert "" + block + "" == block && "" + "a" + "" == "a";
  }
}
