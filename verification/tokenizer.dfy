/**
 The tokenizer of the shell (`getcmd` in shell_api.c): one raw input line
 becomes a sequence of argument tokens plus a background flag.

 A line is a `string` in which every `char` stands for one byte read by
 `getline`, so only the values 0 to 255 occur; `IsCut` would also cut at
 any larger value, which no byte can have. The C string functions that the
 tokenizer uses see the line only up to its first NUL byte. The first `&` of that prefix is overwritten by a
 space and sets the background flag; the result is cut by `strsep` at every
 space, tab and newline (empty fields included); every field is cut again at
 its first byte that compares `<= 32` as a plain `char`; empty fields are
 dropped.
 */
module Tokenizer {

  /** `args` has 20 slots and the slot after the last token receives NULL. */
  const MaxTokens: nat := 19

  /** The separator set `" \t\n"` handed to `strsep`. */
  predicate IsDelimiter(c: char)
  {
    c == ' ' || c == '\t' || c == '\n'
  }

  /**
   The test `token[j] <= 32` on a plain `char`, which is signed on the
   platforms the shell targets: control bytes, space, and every byte of
   0x80 and above (a negative `char`) end a token.
   */
  predicate IsCut(c: char)
  {
    c as int <= 32 || c as int >= 128
  }

  /** What `getcmd` stores in `args`: non-empty, and free of cutting bytes. */
  predicate WellFormedToken(t: string)
  {
    |t| > 0 && forall j :: 0 <= j < |t| ==> !IsCut(t[j])
  }

  /** The part of the buffer the C string functions see: everything before the first NUL. */
  function CString(s: string): (r: string)
    ensures |r| <= |s| && r == s[..|r|]
    ensures forall j :: 0 <= j < |r| ==> r[j] != '\0'
    ensures |r| < |s| ==> s[|r|] == '\0'
  {
    if |s| == 0 || s[0] == '\0' then [] else [s[0]] + CString(s[1..])
  }

  /** Position of the first `&` (as `index(line, '&')` finds it), or `|s|` when there is none. */
  function FirstAmpersand(s: string): (i: nat)
    ensures i <= |s|
    ensures i < |s| ==> s[i] == '&'
    ensures forall j :: 0 <= j < i ==> s[j] != '&'
  {
    if |s| == 0 then 0
    else if s[0] == '&' then 0
    else 1 + FirstAmpersand(s[1..])
  }

  /**
   The background check: the flag is set exactly when the line holds an `&`,
   and only that first `&` is turned into a space; every later `&` stays.
   */
  function MarkBackground(s: string): (r: (string, bool))
    ensures r.1 <==> '&' in s
    ensures |r.0| == |s|
    ensures forall j :: 0 <= j < |s| ==> (r.0[j] != s[j] <==> r.1 && j == FirstAmpersand(s))
    ensures r.1 ==> r.0[FirstAmpersand(s)] == ' '
  {
    var i := FirstAmpersand(s);
    if i < |s| then (s[i := ' '], true) else (s, false)
  }

  /** Marking a line whose first `&` is at `i`. */
  lemma MarkAt(s: string, i: nat)
    requires i < |s| && FirstAmpersand(s) == i
    ensures MarkBackground(s) == (s[i := ' '], true)
  {
  }

  /** Marking a line without `&`. */
  lemma MarkNone(s: string)
    requires FirstAmpersand(s) == |s|
    ensures MarkBackground(s) == (s, false)
  {
  }

  /** Position of the first separator, or `|s|` when there is none. */
  function FirstDelimiter(s: string): (i: nat)
    ensures i <= |s|
    ensures i < |s| ==> IsDelimiter(s[i])
    ensures forall j :: 0 <= j < i ==> !IsDelimiter(s[j])
  {
    if |s| == 0 then 0
    else if IsDelimiter(s[0]) then 0
    else 1 + FirstDelimiter(s[1..])
  }

  /** The separator bytes of `s`, in the order they occur. */
  function Separators(s: string): (r: string)
  {
    if |s| == 0 then []
    else (if IsDelimiter(s[0]) then [s[0]] else []) + Separators(s[1..])
  }

  /** Fields glued back together, the `k`-th separator between field `k` and field `k + 1`. */
  function Join(fs: seq<string>, seps: string): string
    requires |fs| == |seps| + 1
  {
    if |seps| == 0 then fs[0] else fs[0] + [seps[0]] + Join(fs[1..], seps[1..])
  }

  lemma {:induction false} NoSeparators(s: string)
    requires forall j :: 0 <= j < |s| ==> !IsDelimiter(s[j])
    ensures Separators(s) == []
  {
    if |s| > 0 {
      NoSeparators(s[1..]);
    }
  }

  lemma {:induction false} SeparatorsAt(s: string, i: nat)
    requires i < |s| && IsDelimiter(s[i])
    requires forall j :: 0 <= j < i ==> !IsDelimiter(s[j])
    ensures Separators(s) == [s[i]] + Separators(s[i + 1..])
  {
    if i > 0 {
      assert s[1..][i - 1] == s[i];
      assert s[1..][i..] == s[i + 1..];
      SeparatorsAt(s[1..], i - 1);
    }
  }

  /**
   The fields that repeated `strsep(&line, " \t\n")` returns: the text
   between consecutive separators, empty fields included, the last field
   being whatever follows the last separator. There is one field more than
   there are separators, no field holds a separator, and the fields joined
   with the line's separators give the line back, so they are determined.
   */
  function Fields(s: string): (r: seq<string>)
    decreases |s|
    ensures |r| >= 1
    ensures forall k, j :: 0 <= k < |r| && 0 <= j < |r[k]| ==> !IsDelimiter(r[k][j])
    ensures |r| == |Separators(s)| + 1 && Join(r, Separators(s)) == s
  {
    var i := FirstDelimiter(s);
    if i == |s| then
      NoSeparators(s);
      [s]
    else
      JoinStep(s, i, Fields(s[i + 1..]));
      [s[..i]] + Fields(s[i + 1..])
  }

  /** The field before the first separator, glued to the rebuilt rest, rebuilds the whole line. */
  lemma JoinStep(s: string, i: nat, rest: seq<string>)
    requires i < |s| && IsDelimiter(s[i])
    requires forall j :: 0 <= j < i ==> !IsDelimiter(s[j])
    requires |rest| == |Separators(s[i + 1..])| + 1 && Join(rest, Separators(s[i + 1..])) == s[i + 1..]
    ensures |[s[..i]] + rest| == |Separators(s)| + 1 && Join([s[..i]] + rest, Separators(s)) == s
  {
    SeparatorsAt(s, i);
    var r := [s[..i]] + rest;
    assert r[1..] == rest;
    assert s == s[..i] + [s[i]] + s[i + 1..];
  }

  /** The inner loop of `getcmd`: a field is ended at its first cutting byte. */
  function Truncate(f: string): (r: string)
    ensures |r| <= |f| && r == f[..|r|]
    ensures forall j :: 0 <= j < |r| ==> !IsCut(r[j])
    ensures |r| < |f| ==> IsCut(f[|r|])
  {
    if |f| == 0 || IsCut(f[0]) then [] else [f[0]] + Truncate(f[1..])
  }

  /** Truncate every field and keep the non-empty results, in order. */
  function Collect(fields: seq<string>): (r: seq<string>)
    ensures |r| <= |fields|
    ensures forall k :: 0 <= k < |r| ==> WellFormedToken(r[k])
  {
    if |fields| == 0 then []
    else
      var t := Truncate(fields[0]);
      (if |t| > 0 then [t] else []) + Collect(fields[1..])
  }

  /** The tokens `getcmd` stores in `args`, whatever their number. */
  function Tokens(line: string): seq<string>
  {
    Collect(Fields(MarkBackground(CString(line)).0))
  }

  /** The background flag `getcmd` reports for a line. */
  function Background(line: string): bool
  {
    MarkBackground(CString(line)).1
  }

  /** One read from the line source: `getline` either fails or yields bytes. */
  datatype LineInput = EndOfInput | Line(bytes: string)

  /** The parsed command handed to the rest of the shell. */
  datatype Command = Command(args: seq<string>, background: bool)

  /** A read of no data ends the session (the shell then runs its exit sequence). */
  datatype Getcmd = EndSession | Parsed(cmd: Command)

  /** `getline` reports no data: end of input, a read failure or a length of zero. */
  predicate NoData(input: LineInput)
  {
    input.EndOfInput? || |input.bytes| == 0
  }

  /**
   `getcmd` without its prompt and its read: the tokens and flag of a line,
   or the end of the session. The caller must not send a line with more than
   19 tokens, since the source writes `args[i]` without a bound check.
   */
  function GetCommand(input: LineInput): (r: Getcmd)
    requires !NoData(input) ==> |Tokens(input.bytes)| <= MaxTokens
    ensures r.EndSession? <==> NoData(input)
    ensures r.Parsed? ==> |r.cmd.args| <= MaxTokens
    ensures r.Parsed? ==> forall k :: 0 <= k < |r.cmd.args| ==> WellFormedToken(r.cmd.args[k])
    ensures r.Parsed? ==> (r.cmd.background <==> '&' in CString(input.bytes))
    ensures r.Parsed? ==> r.cmd.args == Collect(Fields(MarkBackground(CString(input.bytes)).0))
  {
    if NoData(input) then EndSession
    else Parsed(Command(Tokens(input.bytes), Background(input.bytes)))
  }

  // ---------------------------------------------------------------------
  // Round trip: rendering plain words and tokenizing the result gives them back.

  /** A word that survives tokenizing unchanged and is not a background marker. */
  predicate PlainWord(w: string)
  {
    WellFormedToken(w) && '&' !in w
  }

  /** Each word followed by one space. */
  function Spaced(ws: seq<string>): string
  {
    if |ws| == 0 then [] else ws[0] + " " + Spaced(ws[1..])
  }

  /** The line a user types for these words, with `&` before the newline when backgrounded. */
  function Render(ws: seq<string>, background: bool): string
  {
    Spaced(ws) + (if background then "&\n" else "\n")
  }

  lemma {:induction false} SpacedPlain(ws: seq<string>)
    requires forall k :: 0 <= k < |ws| ==> PlainWord(ws[k])
    ensures forall j :: 0 <= j < |Spaced(ws)| ==> Spaced(ws)[j] != '&' && Spaced(ws)[j] != '\0'
  {
    if |ws| > 0 {
      SpacedPlain(ws[1..]);
      var a := ws[0] + " ";
      assert Spaced(ws) == a + Spaced(ws[1..]);
      forall j | 0 <= j < |Spaced(ws)|
        ensures Spaced(ws)[j] != '&' && Spaced(ws)[j] != '\0'
      {
        if j < |ws[0]| {
          assert Spaced(ws)[j] == ws[0][j];
          assert !IsCut(ws[0][j]);
        } else if j > |ws[0]| {
          assert Spaced(ws)[j] == Spaced(ws[1..])[j - |a|];
        }
      }
    }
  }

  lemma {:induction false} CStringWhole(s: string)
    requires forall j :: 0 <= j < |s| ==> s[j] != '\0'
    ensures CString(s) == s
  {
    if |s| > 0 {
      CStringWhole(s[1..]);
    }
  }

  lemma {:induction false} FirstAmpersandAfter(a: string, b: string)
    requires '&' !in a
    ensures FirstAmpersand(a + b) == |a| + FirstAmpersand(b)
  {
    if |a| > 0 {
      assert (a + b)[1..] == a[1..] + b;
      FirstAmpersandAfter(a[1..], b);
    } else {
      assert a + b == b;
    }
  }

  /** A word without separators, followed by a separator, is the first field. */
  lemma {:induction false} FirstDelimiterOfWord(w: string, d: char, rest: string)
    requires forall j :: 0 <= j < |w| ==> !IsDelimiter(w[j])
    requires IsDelimiter(d)
    ensures FirstDelimiter(w + [d] + rest) == |w|
  {
    if |w| > 0 {
      assert (w + [d] + rest)[1..] == w[1..] + [d] + rest;
      FirstDelimiterOfWord(w[1..], d, rest);
    }
  }

  lemma {:induction false} NoDelimiter(w: string)
    requires forall j :: 0 <= j < |w| ==> !IsDelimiter(w[j])
    ensures Fields(w) == [w]
    ensures FirstDelimiter(w) == |w|
  {
    if |w| > 0 {
      NoDelimiter(w[1..]);
    }
  }

  lemma FieldsAfterWord(w: string, d: char, rest: string)
    requires forall j :: 0 <= j < |w| ==> !IsDelimiter(w[j])
    requires IsDelimiter(d)
    ensures Fields(w + [d] + rest) == [w] + Fields(rest)
  {
    var s := w + [d] + rest;
    FirstDelimiterOfWord(w, d, rest);
    assert s[..|w|] == w;
    assert s[|w| + 1..] == rest;
  }

  lemma CollectPlainHead(w: string, fs: seq<string>)
    requires WellFormedToken(w)
    ensures Collect([w] + fs) == [w] + Collect(fs)
  {
    TruncatePlain(w);
    assert ([w] + fs)[1..] == fs;
  }

  lemma {:induction false} CollectSpaced(ws: seq<string>, tail: string)
    requires forall k :: 0 <= k < |ws| ==> PlainWord(ws[k])
    ensures Collect(Fields(Spaced(ws) + tail)) == ws + Collect(Fields(tail))
  {
    if |ws| > 0 {
      var w := ws[0];
      var rest := Spaced(ws[1..]) + tail;
      var X := Collect(Fields(tail));
      assert Fields(Spaced(ws) + tail) == [w] + Fields(rest) by {
        assert Spaced(ws) + tail == w + [' '] + rest;
        assert PlainWord(w);
        PlainHasNoDelimiter(w);
        FieldsAfterWord(w, ' ', rest);
      }
      assert Collect([w] + Fields(rest)) == [w] + Collect(Fields(rest)) by {
        assert PlainWord(w);
        CollectPlainHead(w, Fields(rest));
      }
      assert Collect(Fields(rest)) == ws[1..] + X by {
        CollectSpaced(ws[1..], tail);
      }
      ConsAppend(ws, X);
    } else {
      assert Spaced(ws) + tail == tail;
    }
  }

  lemma {:induction false} TruncatePlain(w: string)
    requires forall j :: 0 <= j < |w| ==> !IsCut(w[j])
    ensures Truncate(w) == w
  {
    if |w| > 0 {
      TruncatePlain(w[1..]);
    }
  }

  lemma RenderedHasNoNul(ws: seq<string>, background: bool)
    requires forall k :: 0 <= k < |ws| ==> PlainWord(ws[k])
    ensures CString(Render(ws, background)) == Render(ws, background)
  {
    var line := Render(ws, background);
    var tail := if background then "&\n" else "\n";
    SpacedPlain(ws);
    forall j | 0 <= j < |line| ensures line[j] != '\0' {
      if j >= |Spaced(ws)| {
        assert line[j] == tail[j - |Spaced(ws)|];
      } else {
        assert line[j] == Spaced(ws)[j];
      }
    }
    CStringWhole(line);
  }

  lemma MarkRendered(ws: seq<string>, background: bool)
    requires forall k :: 0 <= k < |ws| ==> PlainWord(ws[k])
    ensures MarkBackground(Render(ws, background)) == (Spaced(ws) + (if background then " \n" else "\n"), background)
  {
    var S := Spaced(ws);
    assert '&' !in S by {
      SpacedPlain(ws);
      forall j | 0 <= j < |S| ensures S[j] != '&' { }
    }
    if background {
      assert MarkBackground(S + "&\n") == (S + ([' '] + "&\n"[1..]), true) by {
        assert FirstAmpersand("&\n") == 0;
        FirstAmpersandAfter(S, "&\n");
        MarkAt(S + "&\n", |S|);
        UpdateAt(S, "&\n", ' ');
      }
      assert [' '] + "&\n"[1..] == " \n";
    } else {
      assert FirstAmpersand(S + "\n") == |S + "\n"| by {
        assert FirstAmpersand("\n"[1..]) == 0;
        FirstAmpersandAfter(S, "\n");
      }
      MarkNone(S + "\n");
    }
  }

  lemma TailsHaveNoTokens()
    ensures Collect(Fields("\n")) == []
    ensures Collect(Fields(" \n")) == []
  {
    assert FirstDelimiter("") == 0;
    assert Fields("") == [""];
    assert FirstDelimiter("\n") == 0;
    assert "\n"[1..] == "";
    assert Fields("\n") == ["", ""];
    assert FirstDelimiter(" \n") == 0;
    assert " \n"[1..] == "\n";
    assert Fields(" \n") == ["", "", ""];
  }

  /** A field is kept up to, and without, its first cutting byte. */
  lemma {:induction false} TruncateAtCut(w: string, c: char, rest: string)
    requires forall j :: 0 <= j < |w| ==> !IsCut(w[j])
    requires IsCut(c)
    ensures Truncate(w + [c] + rest) == w
  {
    if |w| > 0 {
      assert (w + [c] + rest)[1..] == w[1..] + [c] + rest;
      TruncateAtCut(w[1..], c, rest);
      assert w == [w[0]] + w[1..];
    } else {
      assert (w + [c] + rest)[0] == c;
    }
  }

  /**
   A line rendered from plain words tokenizes back to exactly those words,
   and its background flag is the one it was rendered with.
   */
  lemma RenderRoundTrip(ws: seq<string>, background: bool)
    requires forall k :: 0 <= k < |ws| ==> PlainWord(ws[k])
    requires |ws| <= MaxTokens
    ensures Tokens(Render(ws, background)) == ws
    ensures Background(Render(ws, background)) == background
    ensures GetCommand(Line(Render(ws, background))) == Parsed(Command(ws, background))
  {
    var tail := if background then " \n" else "\n";
    RenderedHasNoNul(ws, background);
    MarkRendered(ws, background);
    CollectSpaced(ws, tail);
    TailsHaveNoTokens();
    assert ws + [] == ws;
  }

  // ---------------------------------------------------------------------
  // Worked lines.

  /** How a line with no NUL and no `&` is tokenized: its fields, truncated and filtered. */
  lemma TokensOfPlainLine(line: string, fields: seq<string>)
    requires forall j :: 0 <= j < |line| ==> line[j] != '\0' && line[j] != '&'
    requires Fields(line) == fields
    ensures Tokens(line) == Collect(fields)
    ensures !Background(line)
  {
    CStringWhole(line);
    assert '&' !in line;
  }

  /** The background marker is dropped and the newline ends the last token. */
  lemma ListInBackground()
    ensures Tokens("ls -l &\n") == ["ls", "-l"]
    ensures Background("ls -l &\n")
    ensures GetCommand(Line("ls -l &\n")) == Parsed(Command(["ls", "-l"], true))
  {
    var ws := ["ls", "-l"];
    assert Render(ws, true) == "ls -l &\n" by {
      assert Spaced(ws[1..][1..]) == [];
      assert Spaced(ws[1..]) == "-l ";
      assert Spaced(ws) == "ls -l ";
    }
    assert forall k :: 0 <= k < |ws| ==> PlainWord(ws[k]) by {
      assert PlainWord("ls") && PlainWord("-l");
    }
    RenderRoundTrip(ws, true);
  }

  lemma CollectFirst(w: string, fs: seq<string>)
    ensures Collect([w] + fs) == (if |Truncate(w)| > 0 then [Truncate(w)] else []) + Collect(fs)
  {
    assert ([w] + fs)[1..] == fs;
  }

  lemma CollectEmpty()
    ensures Collect([""]) == []
  {
    CollectFirst("", []);
  }

  lemma PlainHasNoDelimiter(w: string)
    requires forall j :: 0 <= j < |w| ==> !IsCut(w[j])
    ensures forall j :: 0 <= j < |w| ==> !IsDelimiter(w[j]) && w[j] != '\0'
  {
    forall j | 0 <= j < |w| ensures !IsDelimiter(w[j]) && w[j] != '\0' {
      assert !IsCut(w[j]);
    }
  }

  /** Two fields, then the empty field after the final newline. */
  lemma TwoFields(f: string, d: char, g: string)
    requires forall j :: 0 <= j < |f| ==> !IsDelimiter(f[j])
    requires forall j :: 0 <= j < |g| ==> !IsDelimiter(g[j])
    requires IsDelimiter(d)
    ensures Fields(f + [d] + (g + ['\n'] + "")) == [f, g, ""]
  {
    NoDelimiter("");
    FieldsAfterWord(g, '\n', "");
    FieldsAfterWord(f, d, g + ['\n'] + "");
  }

  /** Collecting two fields and the trailing empty one keeps their truncations. */
  lemma CollectTwo(f: string, g: string)
    requires |Truncate(f)| > 0 && |Truncate(g)| > 0
    ensures Collect([f, g, ""]) == [Truncate(f), Truncate(g)]
  {
    CollectEmpty();
    CollectFirst(g, [""]);
    CollectFirst(f, [g, ""]);
  }

  lemma AmpersandLine(a: string, b: string)
    requires PlainWord(a) && PlainWord(b)
    ensures CString(a + "&&" + b + "\n") == a + "&&" + b + "\n"
    ensures MarkBackground(a + "&&" + b + "\n") == (a + [' '] + (("&" + b) + ['\n'] + ""), true)
  {
    var line := a + "&&" + b + "\n";
    var R := "&&" + b + "\n";
    assert line == a + R by {
      Assoc(a, "&&", b);
      Assoc(a, "&&" + b, "\n");
    }
    assert CString(line) == line by {
      PlainHasNoDelimiter(a);
      PlainHasNoDelimiter(b);
      forall j | 0 <= j < |line| ensures line[j] != '\0' {
        if j < |a| {
          assert line[j] == a[j];
        } else if |a| + 2 <= j < |a| + 2 + |b| {
          assert line[j] == b[j - |a| - 2];
        }
      }
      CStringWhole(line);
    }
    assert MarkBackground(a + R) == (a + ([' '] + R[1..]), true) by {
      assert FirstAmpersand(R) == 0;
      FirstAmpersandAfter(a, R);
      MarkAt(a + R, |a|);
      UpdateAt(a, R, ' ');
    }
    assert R[1..] == ("&" + b) + ['\n'] + "" by {
      TailOfPair('&', '&', b, "\n");
      AppendEmpty(("&" + b) + ['\n']);
    }
    Assoc(a, [' '], R[1..]);
  }

  /**
   Only the first `&` is a separator: in `a&&b` the second `&` stays and
   starts the token `&b`.
   */
  lemma SecondAmpersandSurvives(a: string, b: string)
    requires PlainWord(a) && PlainWord(b)
    ensures Tokens(a + "&&" + b + "\n") == [a, "&" + b]
    ensures Background(a + "&&" + b + "\n")
  {
    var line := a + "&&" + b + "\n";
    var b' := "&" + b;
    var marked := a + [' '] + (b' + ['\n'] + "");
    assert CString(line) == line && MarkBackground(line) == (marked, true) by {
      AmpersandLine(a, b);
    }
    assert Fields(marked) == [a, b', ""] by {
      AmpersandWord(b);
      PlainHasNoDelimiter(a);
      PlainHasNoDelimiter(b');
      TwoFields(a, ' ', b');
    }
    assert Collect([a, b', ""]) == [a, b'] by {
      AmpersandWord(b);
      TruncatePlain(a);
      TruncatePlain(b');
      CollectTwo(a, b');
    }
  }

  /** An `&` in front of a plain word leaves a word the tokenizer does not cut. */
  lemma AmpersandWord(b: string)
    requires PlainWord(b)
    ensures forall j :: 0 <= j < |"&" + b| ==> !IsCut(("&" + b)[j])
  {
    forall j | 0 <= j < |"&" + b| ensures !IsCut(("&" + b)[j]) {
      if j > 0 { assert ("&" + b)[j] == b[j - 1]; }
    }
  }

  lemma CutLine(a: string, x: char, b: string, c: string)
    requires PlainWord(a) && PlainWord(c)
    requires IsCut(x) && !IsDelimiter(x) && x != '\0'
    requires forall j :: 0 <= j < |b| ==> b[j] != '\0' && b[j] != '&' && !IsDelimiter(b[j])
    ensures forall j :: 0 <= j < |a + [x] + b| ==> !IsDelimiter((a + [x] + b)[j])
    ensures var line := a + [x] + b + " " + c + "\n";
      forall j :: 0 <= j < |line| ==> line[j] != '\0' && line[j] != '&'
  {
    var f := a + [x] + b;
    var line := a + [x] + b + " " + c + "\n";
    PlainHasNoDelimiter(a);
    PlainHasNoDelimiter(c);
    forall j | 0 <= j < |line| ensures line[j] != '\0' && line[j] != '&' {
      if j < |a| {
        assert line[j] == a[j] && !IsCut(a[j]);
      } else if |a| < j < |f| {
        assert line[j] == b[j - |a| - 1];
      } else if |f| < j < |f| + 1 + |c| {
        assert line[j] == c[j - |f| - 1] && !IsCut(c[j - |f| - 1]);
      }
    }
    forall j | 0 <= j < |f| ensures !IsDelimiter(f[j]) {
      if j > |a| { assert f[j] == b[j - |a| - 1]; }
    }
  }

  /**
   A cutting byte that is not a separator (a carriage return, a byte of
   0x80 or above) ends the token and throws away the rest of its field.
   */
  lemma CutByteEndsToken(a: string, x: char, b: string, c: string)
    requires PlainWord(a) && PlainWord(c)
    requires IsCut(x) && !IsDelimiter(x) && x != '\0'
    requires forall j :: 0 <= j < |b| ==> b[j] != '\0' && b[j] != '&' && !IsDelimiter(b[j])
    ensures Tokens(a + [x] + b + " " + c + "\n") == [a, c]
    ensures !Background(a + [x] + b + " " + c + "\n")
  {
    var f := a + [x] + b;
    var line := f + [' '] + (c + ['\n'] + "");
    assert line == a + [x] + b + " " + c + "\n";
    CutLine(a, x, b, c);
    PlainHasNoDelimiter(c);
    TwoFields(f, ' ', c);
    TokensOfPlainLine(line, [f, c, ""]);
    TruncateAtCut(a, x, b);
    TruncatePlain(c);
    CollectTwo(f, c);
  }

  /**
   Without an `&` the flag stays clear, and the newline ends the last token.
   Unlike `Render`, the line has no space before its newline, as typed lines
   usually have not.
   */
  lemma TwoWordsInForeground(a: string, b: string)
    requires PlainWord(a) && PlainWord(b)
    ensures Tokens(a + " " + b + "\n") == [a, b]
    ensures !Background(a + " " + b + "\n")
  {
    var line := a + [' '] + (b + ['\n'] + "");
    assert line == a + " " + b + "\n";
    PlainHasNoDelimiter(a);
    PlainHasNoDelimiter(b);
    forall j | 0 <= j < |line| ensures line[j] != '\0' && line[j] != '&' {
      if j < |a| {
        assert line[j] == a[j];
      } else if |a| < j < |a| + 1 + |b| {
        assert line[j] == b[j - |a| - 1];
      }
    }
    TwoFields(a, ' ', b);
    TokensOfPlainLine(line, [a, b, ""]);
    TruncatePlain(a);
    TruncatePlain(b);
    CollectTwo(a, b);
  }

  lemma EchoInForeground()
    ensures Tokens("echo hi\n") == ["echo", "hi"]
    ensures !Background("echo hi\n")
    ensures GetCommand(Line("echo hi\n")) == Parsed(Command(["echo", "hi"], false))
  {
    assert PlainWord("echo") && PlainWord("hi");
    TwoWordsInForeground("echo", "hi");
    assert "echo" + " " + "hi" + "\n" == "echo hi\n";
  }

  /** Whatever follows a NUL byte is invisible, an `&` included. */
  lemma {:induction false} NulHidesRest(a: string, rest: string)
    requires forall j :: 0 <= j < |a| ==> a[j] != '\0'
    ensures CString(a + ['\0'] + rest) == a
    ensures Tokens(a + ['\0'] + rest) == Tokens(a)
    ensures Background(a + ['\0'] + rest) == Background(a)
  {
    if |a| > 0 {
      assert (a + ['\0'] + rest)[1..] == a[1..] + ['\0'] + rest;
      NulHidesRest(a[1..], rest);
      assert a == [a[0]] + a[1..];
    }
    CStringWhole(a);
  }

  // ---------------------------------------------------------------------
  // Collecting, field by field.

  /** Collecting handles the fields one at a time, in order: it distributes over concatenation. */
  lemma {:induction false} CollectAppend(a: seq<string>, b: seq<string>)
    ensures Collect(a + b) == Collect(a) + Collect(b)
  {
    if |a| == 0 {
      assert a + b == b;
    } else {
      assert (a + b)[1..] == a[1..] + b;
      CollectAppend(a[1..], b);
    }
  }

  /** `n` empty fields, as `strsep` returns between `n + 1` adjacent separators. */
  function EmptyFields(n: nat): (r: seq<string>)
  {
    if n == 0 then [] else [""] + EmptyFields(n - 1)
  }

  /** A separator in first place closes an empty field. */
  lemma FieldsAfterSeparator(d: char, x: string)
    requires IsDelimiter(d)
    ensures Fields([d] + x) == [""] + Fields(x)
  {
    assert FirstDelimiter([d] + x) == 0;
    assert ([d] + x)[..0] == "";
    assert ([d] + x)[1..] == x;
  }

  /** A run of separators at the front of a line yields one empty field per separator. */
  lemma {:induction false} FieldsOfRun(run: string, rest: string)
    requires forall j :: 0 <= j < |run| ==> IsDelimiter(run[j])
    ensures Fields(run + rest) == EmptyFields(|run|) + Fields(rest)
  {
    if |run| > 0 {
      var tail := run[1..] + rest;
      FieldsOfRun(run[1..], rest);
      assert Fields(run + rest) == [""] + Fields(tail) by {
        ConsAppend(run, rest);
        FieldsAfterSeparator(run[0], tail);
      }
      Assoc([""], EmptyFields(|run| - 1), Fields(rest));
    } else {
      assert run + rest == rest;
    }
  }

  /** Empty fields yield no token. */
  lemma {:induction false} CollectEmptyFields(n: nat)
    ensures Collect(EmptyFields(n)) == []
  {
    if n > 0 {
      CollectFirst("", EmptyFields(n - 1));
      CollectEmptyFields(n - 1);
    }
  }

  /** Separators before the first word, however many and of whatever kind, give no token. */
  lemma SeparatorRunVanishes(run: string, rest: string)
    requires forall j :: 0 <= j < |run| ==> IsDelimiter(run[j])
    ensures Collect(Fields(run + rest)) == Collect(Fields(rest))
  {
    FieldsOfRun(run, rest);
    CollectAppend(EmptyFields(|run|), Fields(rest));
    CollectEmptyFields(|run|);
  }

  /**
   A word followed by any non-empty run of spaces, tabs and newlines is one
   token, and tokenizing carries on after the run as if it were one space.
   */
  lemma GapsCollapse(w: string, run: string, rest: string)
    requires WellFormedToken(w)
    requires |run| >= 1 && forall j :: 0 <= j < |run| ==> IsDelimiter(run[j])
    ensures Collect(Fields(w + run + rest)) == [w] + Collect(Fields(rest))
  {
    var tail := run[1..] + rest;
    assert Fields(w + run + rest) == [w] + Fields(tail) by {
      PlainHasNoDelimiter(w);
      SplitHead(w, run, rest);
      FieldsAfterWord(w, run[0], tail);
    }
    assert Collect([w] + Fields(tail)) == [w] + Collect(Fields(tail)) by {
      CollectPlainHead(w, Fields(tail));
    }
    assert Collect(Fields(tail)) == Collect(Fields(rest)) by {
      SeparatorRunVanishes(run[1..], rest);
    }
  }

  // ---------------------------------------------------------------------
  // Sequence helpers: small facts about concatenation, stated once so that
  // the proofs above can use them without extensional reasoning in a large
  // context.

  lemma Assoc<T>(a: seq<T>, b: seq<T>, c: seq<T>)
    ensures a + (b + c) == a + b + c
  {
  }

  lemma ConsAppend<T>(s: seq<T>, x: seq<T>)
    requires |s| > 0
    ensures [s[0]] + (s[1..] + x) == s + x
  {
    assert s == [s[0]] + s[1..];
  }

  lemma SplitHead<T>(w: seq<T>, run: seq<T>, rest: seq<T>)
    requires |run| > 0
    ensures w + run + rest == w + [run[0]] + (run[1..] + rest)
  {
    assert run == [run[0]] + run[1..];
  }

  lemma UpdateAt<T>(a: seq<T>, b: seq<T>, c: T)
    requires |b| > 0
    ensures (a + b)[|a| := c] == a + ([c] + b[1..])
  {
  }

  lemma TailOfPair<T>(x: T, y: T, b: seq<T>, c: seq<T>)
    ensures ([x, y] + b + c)[1..] == [y] + b + c
  {
  }

  lemma AppendEmpty<T>(s: seq<T>)
    ensures s + [] == s
  {
  }
}
