/**
 The text handling behind `_print_script` in ct.rb: Ruby's `String#split("\n")`,
 the indentation of the first line, and the per-line re-indentation that shows a
 command block between a `{` line and a `}` line.
 */
module Text {

  datatype Option<T> = None | Some(value: T)

  /** A line as `split` leaves it: no newline character inside. */
  predicate NoNewline(line: string)
  {
    forall j :: 0 <= j < |line| ==> line[j] != '\n'
  }

  /** A string made of newline characters only (the empty string included). */
  predicate AllNewlines(s: string)
  {
    forall j :: 0 <= j < |s| ==> s[j] == '\n'
  }

  /** The pieces of `s` between newline characters, empty pieces included at both ends. */
  function Fields(s: string): (r: seq<string>)
    ensures |r| >= 1
    ensures forall i :: 0 <= i < |r| ==> NoNewline(r[i])
    decreases |s|
  {
    if s == [] then [""]
    else
      var rest := Fields(s[1..]);
      if s[0] == '\n' then [""] + rest
      else [[s[0]] + rest[0]] + rest[1..]
  }

  /** The inverse of `Fields`: the pieces glued back with newlines. */
  function JoinLines(lines: seq<string>): string
  {
    if |lines| == 0 then ""
    else if |lines| == 1 then lines[0]
    else lines[0] + "\n" + JoinLines(lines[1..])
  }

  /** Ruby's `split` with a string separator drops every empty trailing piece. */
  function DropTrailingEmpty(xs: seq<string>): (r: seq<string>)
    ensures r <= xs
    ensures r == [] || r[|r| - 1] != ""
    ensures forall i :: |r| <= i < |xs| ==> xs[i] == ""
    decreases |xs|
  {
    if xs != [] && xs[|xs| - 1] == "" then DropTrailingEmpty(xs[..|xs| - 1]) else xs
  }

  /** `s.split("\n")`: lines without newlines, the last one not empty. */
  function Split(s: string): (r: seq<string>)
    ensures forall i :: 0 <= i < |r| ==> NoNewline(r[i])
    ensures r == [] || r[|r| - 1] != ""
  {
    DropTrailingEmpty(Fields(s))
  }

  /** `(line.slice(/^ +/) || "").length` on a line without newlines: the count of leading spaces. */
  function LeadingSpaces(line: string): (n: nat)
    ensures n <= |line|
    ensures forall j :: 0 <= j < n ==> line[j] == ' '
    ensures n == |line| || line[n] != ' '
  {
    if line != [] && line[0] == ' ' then 1 + LeadingSpaces(line[1..]) else 0
  }

  /**
   `line.gsub(/^.{n}/, '  ')` on a line without newlines: `^` matches only at the
   start, so the first `n` characters become two spaces, and a line shorter than
   `n` is not matched at all.
   */
  function Reindent(line: string, n: nat): (r: string)
    ensures NoNewline(line) ==> NoNewline(r)
    ensures n <= |line| ==> LeadingSpaces(r) >= 2 && r[2..] == line[n..]
    ensures |line| < n ==> r == line
  {
    if n <= |line| then "  " + line[n..] else line
  }

  /** Ruby's regular expression engine refuses a repeat count `{n}` above this bound. */
  const MaxRepeat := 100000

  /**
   Whether `_print_script` raises, stated on the script itself: a script of
   newlines only has no first line, and a script indented by more than
   `MaxRepeat` spaces makes `/^.{n}/` a `RegexpError`.
   */
  predicate PrintRaises(script: string)
  {
    AllNewlines(script) || LeadingSpaces(script) > MaxRepeat
  }

  /**
   The lines `_print_script` puts on the terminal, colour codes left out. `None`
   is an exception raised after the `{` line has been printed: the
   `NoMethodError` when `split` returns no line, so that `lines.first` is nil,
   or the `RegexpError` when the regular expression for the first line's
   indentation is built with a repeat count above `MaxRepeat`.
   */
  function PrintScript(script: string): (r: Option<seq<string>>)
    ensures r.Some? ==> |r.value| >= 3 && r.value[0] == "{" && r.value[|r.value| - 1] == "}"
  {
    var lines := Split(script);
    if lines == [] then None
    else
      var indentation := LeadingSpaces(lines[0]);
      if indentation > MaxRepeat then None
      else Some(["{"] + seq(|lines|, i requires 0 <= i < |lines| => Reindent(lines[i], indentation)) + ["}"])
  }

  // ---------------------------------------------------------------------------
  // split

  lemma {:induction false} FieldsJoin(s: string)
    ensures JoinLines(Fields(s)) == s
    decreases |s|
  {
    if s != [] {
      var rest := Fields(s[1..]);
      FieldsJoin(s[1..]);
      if s[0] == '\n' {
        assert ([""] + rest)[1..] == rest;
      } else if |rest| > 1 {
        var r := [[s[0]] + rest[0]] + rest[1..];
        assert r[1..] == rest[1..];
        assert JoinLines(rest) == rest[0] + "\n" + JoinLines(rest[1..]);
        assert s == [s[0]] + s[1..];
      } else {
        assert s == [s[0]] + s[1..];
      }
    }
  }

  lemma {:induction false} JoinSnoc(lines: seq<string>, last: string)
    ensures JoinLines(lines + [last]) == if lines == [] then last else JoinLines(lines) + "\n" + last
    decreases |lines|
  {
    if |lines| >= 2 {
      assert (lines + [last])[1..] == lines[1..] + [last];
      JoinSnoc(lines[1..], last);
    } else if |lines| == 1 {
      assert (lines + [last])[1..] == [last];
    }
  }

  /** Dropping empty trailing pieces leaves a prefix of the joined text, followed only by newlines. */
  lemma {:induction false} JoinDropTrailing(xs: seq<string>)
    ensures JoinLines(DropTrailingEmpty(xs)) <= JoinLines(xs)
    ensures forall i :: |JoinLines(DropTrailingEmpty(xs))| <= i < |JoinLines(xs)| ==> JoinLines(xs)[i] == '\n'
    decreases |xs|
  {
    if xs != [] && xs[|xs| - 1] == "" {
      var ys := xs[..|xs| - 1];
      assert xs == ys + [""];
      JoinDropTrailing(ys);
      JoinSnoc(ys, "");
    }
  }

  /**
   `split` cuts the script into lines without newlines whose last one is not
   empty; glued back with newlines they give the script minus only its trailing
   newlines.
   */
  lemma SplitSpec(s: string)
    ensures forall i :: 0 <= i < |Split(s)| ==> NoNewline(Split(s)[i])
    ensures Split(s) == [] || Split(s)[|Split(s)| - 1] != ""
    ensures JoinLines(Split(s)) <= s
    ensures forall i :: |JoinLines(Split(s))| <= i < |s| ==> s[i] == '\n'
  {
    FieldsJoin(s);
    JoinDropTrailing(Fields(s));
    var r := Split(s);
    forall i | 0 <= i < |r| ensures NoNewline(r[i]) {
      assert r[i] == Fields(s)[i];
    }
  }

  /** `split` returns no line exactly for a string of newlines only, the empty string included. */
  lemma SplitEmptyIff(s: string)
    ensures Split(s) == [] <==> AllNewlines(s)
  {
    SplitSpec(s);
    var r := Split(s);
    if r != [] {
      var last := r[|r| - 1];
      var init := r[..|r| - 1];
      assert r == init + [last];
      JoinSnoc(init, last);
      var joined := JoinLines(r);
      assert NoNewline(last);
      assert joined[|joined| - 1] == last[|last| - 1];
      assert s[|joined| - 1] != '\n';
    }
  }

  /** The first line of a script that starts with a character other than a newline starts with that character. */
  lemma FirstLineStart(s: string)
    requires s != [] && s[0] != '\n'
    ensures Split(s) != [] && Split(s)[0] != "" && Split(s)[0][0] == s[0]
  {
    SplitEmptyIff(s);
    assert Split(s)[0] == Fields(s)[0];
  }

  /** A script that starts with a newline has an empty first line. */
  lemma FirstLineEmpty(s: string)
    requires s != [] && s[0] == '\n' && !AllNewlines(s)
    ensures Split(s) != [] && Split(s)[0] == ""
  {
    SplitEmptyIff(s);
    assert Split(s)[0] == Fields(s)[0];
  }

  /** The first piece of a string is indented exactly as the string itself. */
  lemma {:induction false} FieldsFirstIndentation(s: string)
    ensures LeadingSpaces(Fields(s)[0]) == LeadingSpaces(s)
    decreases |s|
  {
    if s != [] && s[0] == ' ' {
      FieldsFirstIndentation(s[1..]);
      var first := Fields(s[1..])[0];
      assert Fields(s)[0] == [' '] + first;
      assert ([' '] + first)[1..] == first;
    }
  }

  /** So the indentation `_print_script` reads off the first line is the script's own. */
  lemma FirstLineIndentation(s: string)
    requires !AllNewlines(s)
    ensures Split(s) != [] && LeadingSpaces(Split(s)[0]) == LeadingSpaces(s)
  {
    SplitEmptyIff(s);
    FieldsFirstIndentation(s);
    assert Split(s)[0] == Fields(s)[0];
  }

  // ---------------------------------------------------------------------------
  // indentation

  /** The three properties of `LeadingSpaces` pin it down. */
  lemma LeadingSpacesUnique(line: string, k: nat)
    requires k <= |line|
    requires forall j :: 0 <= j < k ==> line[j] == ' '
    requires k == |line| || line[k] != ' '
    ensures LeadingSpaces(line) == k
  {
  }

  /**
   A line indented at least as deeply as the first line keeps its indentation
   relative to it: `n` leading spaces become two, and the text after the
   indentation is kept.
   */
  lemma ReindentKeepsRelativeIndentation(line: string, n: nat)
    requires n <= LeadingSpaces(line)
    ensures LeadingSpaces(Reindent(line, n)) == LeadingSpaces(line) - n + 2
    ensures Reindent(line, n)[LeadingSpaces(Reindent(line, n))..] == line[LeadingSpaces(line)..]
  {
    var k := LeadingSpaces(line);
    var r := Reindent(line, n);
    assert r == "  " + line[n..];
    forall j | 0 <= j < k - n + 2 ensures r[j] == ' ' {
      if j >= 2 {
        assert r[j] == line[n + j - 2];
      }
    }
    if k < |line| {
      assert r[k - n + 2] == line[k];
    }
    LeadingSpacesUnique(r, k - n + 2);
    assert r[k - n + 2..] == line[k..];
  }

  // ---------------------------------------------------------------------------
  // _print_script

  /** Between the frame lines, line `i` of the output is line `i` of `split` re-indented. */
  lemma PrintScriptBody(script: string)
    requires !PrintRaises(script)
    ensures Split(script) != [] && PrintScript(script).Some?
    ensures var out := PrintScript(script).value;
      var lines := Split(script);
      && LeadingSpaces(lines[0]) == LeadingSpaces(script)
      && |out| == |lines| + 2
      && forall i :: 0 <= i < |lines| ==> out[i + 1] == Reindent(lines[i], LeadingSpaces(script))
  {
    FirstLineIndentation(script);
    var lines := Split(script);
    var indentation := LeadingSpaces(script);
    var body := seq(|lines|, i requires 0 <= i < |lines| => Reindent(lines[i], indentation));
    var out := ["{"] + body + ["}"];
    assert PrintScript(script) == Some(out);
    forall i | 0 <= i < |lines| ensures out[i + 1] == Reindent(lines[i], indentation) {
      assert out[i + 1] == body[i];
    }
  }

  /**
   `_print_script` raises exactly for a script of newlines only, the empty
   script among them, and for a script indented by more than `MaxRepeat` spaces.
   */
  lemma PrintScriptFails(script: string)
    ensures PrintScript(script).None? <==> PrintRaises(script)
    ensures PrintScript("").None?
  {
    SplitEmptyIff(script);
    if !AllNewlines(script) {
      FirstLineIndentation(script);
    }
  }

  /**
   Otherwise it prints a `{` line, one line per line of `split`, and a `}` line;
   each line at least `indentation` long has its first `indentation` characters
   replaced by two spaces, and a shorter one is printed unchanged. The
   indentation is the script's own leading spaces.
   */
  lemma PrintScriptLines(script: string)
    requires !PrintRaises(script)
    ensures PrintScript(script).Some?
    ensures var out := PrintScript(script).value;
      var lines := Split(script);
      var indentation := LeadingSpaces(script);
      && |out| == |lines| + 2
      && out[0] == "{"
      && out[|out| - 1] == "}"
      && (forall i :: 0 <= i < |lines| && indentation <= |lines[i]| ==> out[i + 1] == "  " + lines[i][indentation..])
      && (forall i :: 0 <= i < |lines| && |lines[i]| < indentation ==> out[i + 1] == lines[i])
  {
    PrintScriptBody(script);
    var lines := Split(script);
    var out := PrintScript(script).value;
    assert out[1] == Reindent(lines[0], LeadingSpaces(script));
  }

  /**
   A script that does not start with a space has indentation 0: every line is
   printed with two spaces in front of it, an empty line included.
   */
  lemma PrintScriptZeroIndentation(script: string)
    requires !AllNewlines(script) && script[0] != ' '
    ensures PrintScript(script).Some?
    ensures var out := PrintScript(script).value;
      var lines := Split(script);
      |out| == |lines| + 2 && forall i :: 0 <= i < |lines| ==> out[i + 1] == "  " + lines[i]
  {
    assert LeadingSpaces(script) == 0;
    PrintScriptBody(script);
    var lines := Split(script);
    forall i | 0 <= i < |lines| ensures lines[i][0..] == lines[i] { }
  }

  /**
   The first line is always printed at indentation two, and every line indented
   at least as deeply as the first keeps its indentation relative to the first
   line and its text.
   */
  lemma PrintScriptDedents(script: string)
    requires !PrintRaises(script)
    ensures PrintScript(script).Some?
    ensures var out := PrintScript(script).value;
      var lines := Split(script);
      var indentation := LeadingSpaces(script);
      && |out| == |lines| + 2
      && LeadingSpaces(out[1]) == 2
      && forall i :: 0 <= i < |lines| && indentation <= LeadingSpaces(lines[i]) ==>
           && LeadingSpaces(out[i + 1]) == LeadingSpaces(lines[i]) - indentation + 2
           && out[i + 1][LeadingSpaces(out[i + 1])..] == lines[i][LeadingSpaces(lines[i])..]
  {
    PrintScriptBody(script);
    var lines := Split(script);
    var indentation := LeadingSpaces(script);
    var out := PrintScript(script).value;
    forall i | 0 <= i < |lines| && indentation <= LeadingSpaces(lines[i])
      ensures LeadingSpaces(out[i + 1]) == LeadingSpaces(lines[i]) - indentation + 2
      ensures out[i + 1][LeadingSpaces(out[i + 1])..] == lines[i][LeadingSpaces(lines[i])..]
    {
      ReindentKeepsRelativeIndentation(lines[i], indentation);
    }
    ReindentKeepsRelativeIndentation(lines[0], indentation);
  }

  /** A piece without newlines followed by a newline is the first piece, whatever follows. */
  lemma {:induction false} FieldsLine(x: string, y: string)
    requires NoNewline(x)
    ensures Fields(x + "\n" + y) == [x] + Fields(y)
    decreases |x|
  {
    var s := x + "\n" + y;
    if x == [] {
      assert s[1..] == y;
    } else {
      assert s[1..] == x[1..] + "\n" + y;
      FieldsLine(x[1..], y);
      assert [x[0]] + x[1..] == x;
    }
  }

  /** A string without newlines is a single piece. */
  lemma {:induction false} FieldsSingle(x: string)
    requires NoNewline(x)
    ensures Fields(x) == [x]
    decreases |x|
  {
    if x != [] {
      FieldsSingle(x[1..]);
      assert [x[0]] + x[1..] == x;
    }
  }

  /** `"  a\nbc".split("\n")` is `["  a", "bc"]`. */
  lemma SplitShallowerExample()
    ensures Split("  a\nbc") == ["  a", "bc"]
  {
    assert "  a\nbc" == "  a" + "\n" + "bc";
    FieldsLine("  a", "bc");
    FieldsSingle("bc");
  }

  /**
   The rule cuts characters, not only spaces: a line indented less deeply than
   the first loses text. Here `bc` is shown as two spaces.
   */
  lemma PrintScriptCutsShallowerLine()
    ensures PrintScript("  a\nbc") == Some(["{", "  a", "  ", "}"])
  {
    var s := "  a\nbc";
    SplitShallowerExample();
    LeadingSpacesUnique(s, 2);
    PrintScriptBody(s);
    var out := PrintScript(s).value;
    assert out[1] == Reindent("  a", 2) == "  a";
    assert out[2] == Reindent("bc", 2) == "  ";
    assert out == ["{", "  a", "  ", "}"];
  }
}
