/** The text of an env file: its lines, the variable each defines, and the
    last-wins map they make up. */
module EnvText {
  import opened Text

  // ----- white space and lines -------------------------------------------

  /** `c.isspace()`, as `str.strip` uses it. */
  predicate IsSpace(c: char) {
    var n := c as int;
    0x09 <= n <= 0x0D || 0x1C <= n <= 0x20 || n == 0x85 || n == 0xA0 || n == 0x1680
    || 0x2000 <= n <= 0x200A || n == 0x2028 || n == 0x2029 || n == 0x202F || n == 0x205F || n == 0x3000
  }

  /** A character at which `str.splitlines` ends a line. */
  predicate IsLineBreak(c: char) {
    var n := c as int;
    0x0A <= n <= 0x0D || 0x1C <= n <= 0x1E || n == 0x85 || n == 0x2028 || n == 0x2029
  }

  predicate OneLine(s: string) { forall i :: 0 <= i < |s| ==> !IsLineBreak(s[i]) }

  predicate AllOneLine(lines: seq<string>) { forall i :: 0 <= i < |lines| ==> OneLine(lines[i]) }

  function TrimLeft(s: string): string {
    if s != "" && IsSpace(s[0]) then TrimLeft(s[1..]) else s
  }

  function TrimRight(s: string): string {
    if s != "" && IsSpace(s[|s| - 1]) then TrimRight(s[..|s| - 1]) else s
  }

  /** `s.strip()` */
  function Trim(s: string): string { TrimRight(TrimLeft(s)) }

  predicate Trimmed(s: string) { s == "" || (!IsSpace(s[0]) && !IsSpace(s[|s| - 1])) }

  lemma TrimOfTrimmed(s: string)
    requires Trimmed(s)
    ensures Trim(s) == s
  {}

  /** The pieces between line breaks. A file is read with CR and CR LF turned into
      LF, so that each break is one character. */
  function Breaks(s: string): (parts: seq<string>)
    ensures |parts| >= 1 && AllOneLine(parts)
  {
    if s == "" then [""]
    else
      var rest := Breaks(s[1..]);
      if IsLineBreak(s[0]) then [""] + rest else [[s[0]] + rest[0]] + rest[1..]
  }

  /** The pieces, less an empty one at the end. */
  function DropEnd(parts: seq<string>): seq<string> {
    if parts != [] && parts[|parts| - 1] == "" then parts[..|parts| - 1] else parts
  }

  /** `s.splitlines()`, on the text of a file. */
  function SplitLines(s: string): seq<string> { DropEnd(Breaks(s)) }

  /** `"\n".join(lines) + "\n"` */
  function JoinLines(lines: seq<string>): string { Join(lines, '\n') + "\n" }

  lemma SplitIsOneLine(s: string)
    ensures AllOneLine(SplitLines(s))
  {}

  lemma {:induction false} BreaksOfSum(a: string, b: string)
    ensures Breaks(a + "\n" + b) == Breaks(a) + Breaks(b)
  {
    var s := a + "\n" + b;
    if a == "" {
      assert s[1..] == b;
    } else {
      Regroup(a, "\n", b);
      TailOfSum(a, "\n" + b);
      Regroup(a[1..], "\n", b);
      BreaksOfSum(a[1..], b);
      var rest := Breaks(a[1..]);
      TailOfSum(rest, Breaks(b));
      if IsLineBreak(a[0]) {
        Regroup([""], rest, Breaks(b));
      } else {
        Regroup([[a[0]] + rest[0]], rest[1..], Breaks(b));
      }
    }
  }

  lemma {:induction false} BreaksOfOneLine(a: string)
    requires OneLine(a)
    ensures Breaks(a) == [a]
  {
    if a != "" {
      BreaksOfOneLine(a[1..]);
      assert [a[0]] + a[1..] == a;
    }
  }

  lemma DropEndOfSum(a: seq<string>, b: seq<string>)
    requires b != []
    ensures DropEnd(a + b) == a + DropEnd(b)
  {}

  /** A line feed ends what was written before it, whatever that holds. */
  lemma SplitEnded(a: string)
    ensures SplitLines(a + "\n") == Breaks(a)
  {
    BreaksOfSum(a, "");
    assert a + "\n" + "" == a + "\n";
    DropEndOfSum(Breaks(a), [""]);
    assert Breaks(a) + [] == Breaks(a);
  }

  /** After a line feed the lines of the rest begin. */
  lemma SplitAtNewline(a: string, rest: string)
    ensures SplitLines(a + "\n" + rest) == Breaks(a) + SplitLines(rest)
  {
    BreaksOfSum(a, rest);
    DropEndOfSum(Breaks(a), Breaks(rest));
  }

  /** The lines that come of lines written one after the other. */
  function Pieces(lines: seq<string>): seq<string> {
    if lines == [] then [] else Breaks(lines[0]) + Pieces(lines[1..])
  }

  lemma {:induction false} SplitJoinPieces(lines: seq<string>)
    requires lines != []
    ensures SplitLines(JoinLines(lines)) == Pieces(lines)
  {
    if |lines| == 1 {
      SplitEnded(lines[0]);
      assert Pieces(lines[1..]) == [] && Breaks(lines[0]) + [] == Breaks(lines[0]);
    } else {
      SplitJoinPieces(lines[1..]);
      SplitAtNewline(lines[0], JoinLines(lines[1..]));
      assert JoinLines(lines) == lines[0] + "\n" + JoinLines(lines[1..]);
    }
  }

  lemma {:induction false} PiecesOfOneLines(lines: seq<string>)
    requires AllOneLine(lines)
    ensures Pieces(lines) == lines
  {
    if lines != [] {
      BreaksOfOneLine(lines[0]);
      PiecesOfOneLines(lines[1..]);
      assert [lines[0]] + lines[1..] == lines;
    }
  }

  /** Lines joined and split again are the same lines. */
  lemma SplitJoinLines(lines: seq<string>)
    requires lines != [] && AllOneLine(lines)
    ensures SplitLines(JoinLines(lines)) == lines
  {
    SplitJoinPieces(lines);
    PiecesOfOneLines(lines);
  }

  /** A prefix without breaks goes with the first piece. */
  lemma {:induction false} BreaksWithPrefix(p: string, s: string)
    requires OneLine(p)
    ensures Breaks(p + s) == [p + Breaks(s)[0]] + Breaks(s)[1..]
  {
    if p == "" {
      assert p + s == s && "" + Breaks(s)[0] == Breaks(s)[0];
      assert [Breaks(s)[0]] + Breaks(s)[1..] == Breaks(s);
    } else {
      BreaksWithPrefix(p[1..], s);
      TailOfSum(p, s);
      assert [p[0]] + (p[1..] + Breaks(s)[0]) == p + Breaks(s)[0];
    }
  }

  /** Does the text break at line feeds only? */
  predicate LineFeedsOnly(s: string) { forall i :: 0 <= i < |s| && IsLineBreak(s[i]) ==> s[i] == '\n' }

  lemma {:induction false} BreaksAreSplit(s: string)
    requires LineFeedsOnly(s)
    ensures Breaks(s) == Split(s, '\n')
  {
    if s != "" { BreaksAreSplit(s[1..]); }
  }

  // ----- the variable of a line ------------------------------------------

  function IndexOf(s: string, c: char): (i: nat)
    requires c in s
    ensures i < |s| && s[i] == c && c !in s[..i]
  {
    if s[0] == c then 0 else 1 + IndexOf(s[1..], c)
  }

  /** `ln.partition("=")`, without its middle. */
  function KeyPart(ln: string): (k: string)
    requires '=' in ln
    ensures '=' !in k
  {
    ln[..IndexOf(ln, '=')]
  }

  function ValuePart(ln: string): string
    requires '=' in ln
  {
    ln[IndexOf(ln, '=') + 1..]
  }

  lemma {:induction false} IndexOfAt(a: string, c: char, b: string)
    requires c !in a
    ensures c in a + [c] + b && IndexOf(a + [c] + b, c) == |a|
  {
    var s := a + [c] + b;
    assert s[|a|] == c;
    if a != "" {
      IndexOfAt(a[1..], c, b);
      assert s[1..] == a[1..] + [c] + b;
    }
  }

  lemma Parts(a: string, b: string)
    requires '=' !in a
    ensures '=' in a + "=" + b && KeyPart(a + "=" + b) == a && ValuePart(a + "=" + b) == b
  {
    IndexOfAt(a, '=', b);
    assert a + "=" + b == a + ['='] + b;
  }

  lemma PartsOf(ln: string)
    requires '=' in ln
    ensures ln == KeyPart(ln) + "=" + ValuePart(ln)
  {}

  lemma OneLineSum(a: string, b: string)
    requires OneLine(a) && OneLine(b)
    ensures OneLine(a + "=" + b)
  {}

  lemma OneLineParts(a: string, b: string)
    requires OneLine(a + "=" + b)
    ensures OneLine(a) && OneLine(b)
  {
    var s := a + "=" + b;
    assert forall i :: 0 <= i < |a| ==> s[i] == a[i];
    assert forall i :: 0 <= i < |b| ==> s[|a| + 1 + i] == b[i];
  }

  /** Does the line hold an assignment at all? */
  predicate IsAssignment(ln: string) {
    Trim(ln) != "" && Trim(ln)[0] != '#' && '=' in ln
  }

  /** `_env_line_key` */
  function LineKey(ln: string): Option<string> {
    if IsAssignment(ln) then Some(Trim(KeyPart(ln))) else None
  }

  /** What the line assigns. */
  function LineValue(ln: string): string
    requires IsAssignment(ln)
  {
    Trim(ValuePart(ln))
  }

  /** What one more line makes of the variables so far. */
  function Bind(m: map<string, string>, ln: string): map<string, string> {
    if LineKey(ln).None? || LineKey(ln) == Some("") then m
    else m[LineKey(ln).value := LineValue(ln)]
  }

  /** The variables the lines define, the last line for each. */
  function ParseLines(lines: seq<string>): map<string, string> {
    if lines == [] then map[] else Bind(ParseLines(lines[..|lines| - 1]), lines[|lines| - 1])
  }

  /** A value that shell wrappers would run. */
  predicate HasSubstitution(v: string) {
    '`' in v || exists i :: 0 <= i < |v| - 1 && v[i] == '$' && v[i + 1] == '('
  }

  /** A backtick anywhere, or a dollar sign right before a parenthesis. */
  lemma HasSubstitutionExactly(v: string)
    ensures HasSubstitution(v) <==> '`' in v || exists a: string, b: string :: v == a + "$(" + b
  {
    if HasSubstitution(v) && '`' !in v {
      var i :| 0 <= i < |v| - 1 && v[i] == '$' && v[i + 1] == '(';
      assert v == v[..i] + "$(" + v[i + 2..];
    }
    forall a: string, b: string | v == a + "$(" + b ensures HasSubstitution(v) {
      assert v[|a|] == '$' && v[|a| + 1] == '(';
    }
  }

  function WithoutSubstitutions(m: map<string, string>): map<string, string> {
    map k | k in m && !HasSubstitution(m[k]) :: m[k]
  }

  /** `dict(_parse_env_file(path))`, for files of plain assignments. A file is
      read with CR and CRLF turned into LF; unlike `splitlines`, the loader ends
      its lines nowhere else. */
  function ParseEnv(text: string): map<string, string> {
    WithoutSubstitutions(ParseLines(Split(text, '\n')))
  }

  /** The loader takes what its lines define, less the values with substitutions. */
  lemma LoadedExactly(text: string, k: string, v: string)
    ensures (k in ParseEnv(text) && ParseEnv(text)[k] == v)
       <==> && k in ParseLines(Split(text, '\n')) && ParseLines(Split(text, '\n'))[k] == v
            && '`' !in v && !exists a: string, b: string :: v == a + "$(" + b
  {
    HasSubstitutionExactly(v);
  }

  /** A line without a name, a comment and a line without `=` define nothing. */
  lemma DefinesNothing(m: map<string, string>, v: string)
    ensures Bind(m, "=" + v) == m && Bind(m, "#" + v) == m
    ensures '=' !in v ==> Bind(m, v) == m
  {
    Parts("", v);
    assert "" + "=" + v == "=" + v;
    if IsAssignment("#" + v) { TrimRightKeepsFirst("#" + v); }
  }

  /** The ASCII characters that `strip` removes and at which `splitlines` breaks. */
  lemma AsciiBlanks(c: char)
    requires c as int < 0x80
    ensures IsSpace(c) <==> c in "\t\n\U{0B}\U{0C}\r\U{1C}\U{1D}\U{1E}\U{1F} "
    ensures IsLineBreak(c) <==> c in "\n\U{0B}\U{0C}\r\U{1C}\U{1D}\U{1E}"
  {}

  /** Every line break is a blank; beyond ASCII there are three. */
  lemma WideBreaks(c: char)
    ensures IsLineBreak(c) ==> IsSpace(c)
    ensures c as int >= 0x80 ==> (IsLineBreak(c) <==> c in "\U{85}\U{2028}\U{2029}")
    ensures c in "\U{A0}\U{1680}\U{2000}\U{200A}\U{202F}\U{205F}\U{3000}" ==> IsSpace(c) && !IsLineBreak(c)
    ensures c in "\U{200B}\U{FEFF}\U{180E}" ==> !IsSpace(c)
  {}

  // ----- where lines end -------------------------------------------------

  lemma {:induction false} JoinEmptyLast(lines: seq<string>)
    requires lines != []
    ensures Join(lines + [""], '\n') == JoinLines(lines)
  {
    if |lines| > 1 {
      JoinEmptyLast(lines[1..]);
      assert (lines + [""])[1..] == lines[1..] + [""];
      assert lines[0] + ['\n'] + (Join(lines[1..], '\n') + "\n") == lines[0] + ['\n'] + Join(lines[1..], '\n') + "\n";
    }
  }

  lemma ParseEmptyLast(lines: seq<string>)
    ensures ParseLines(lines + [""]) == ParseLines(lines)
  {
    assert (lines + [""])[..|lines|] == lines;
  }

  lemma UniformText(text: string)
    requires LineFeedsOnly(text)
    ensures ParseLines(SplitLines(text)) == ParseLines(Split(text, '\n'))
  {
    BreaksAreSplit(text);
    ParseDropEnd(Breaks(text));
  }

  lemma ParseDropEnd(parts: seq<string>)
    ensures ParseLines(DropEnd(parts)) == ParseLines(parts)
  {
    if parts != [] && parts[|parts| - 1] == "" {
      assert parts[..|parts| - 1] + [""] == parts;
      ParseEmptyLast(parts[..|parts| - 1]);
    }
  }

  // ----- a line just written ---------------------------------------------

  lemma {:induction false} TrimLeftOneLine(s: string)
    requires OneLine(s)
    ensures OneLine(TrimLeft(s))
  {
    if s != "" && IsSpace(s[0]) { TrimLeftOneLine(s[1..]); }
  }

  lemma {:induction false} TrimRightOneLine(s: string)
    requires OneLine(s)
    ensures OneLine(TrimRight(s))
  {
    if s != "" && IsSpace(s[|s| - 1]) { TrimRightOneLine(s[..|s| - 1]); }
  }

  lemma {:induction false} TrimLeftSum(a: string, b: string)
    requires TrimLeft(a) != ""
    ensures TrimLeft(a + b) == TrimLeft(a) + b
  {
    if IsSpace(a[0]) {
      TrimLeftSum(a[1..], b);
      assert (a + b)[1..] == a[1..] + b;
    }
  }

  lemma {:induction false} TrimRightResult(s: string)
    ensures TrimRight(s) == "" || !IsSpace(TrimRight(s)[|TrimRight(s)| - 1])
  {
    if s != "" && IsSpace(s[|s| - 1]) { TrimRightResult(s[..|s| - 1]); }
  }

  lemma TrimIsTrimmed(s: string)
    ensures Trimmed(Trim(s))
  {
    TrimLeftStart(s);
    TrimRightResult(TrimLeft(s));
    if TrimLeft(s) != "" { TrimRightKeepsFirst(TrimLeft(s)); }
  }

  /** Whatever a line defines is a name that would define itself. */
  lemma KeyIsPlain(ln: string)
    requires OneLine(ln) && LineKey(ln).Some? && LineKey(ln).value != ""
    ensures PlainName(LineKey(ln).value)
  {
    var key := KeyPart(ln);
    PartsOf(ln);
    TrimIsTrimmed(key);
    OneLineParts(key, ValuePart(ln));
    TrimLeftOneLine(key);
    TrimRightOneLine(TrimLeft(key));
    TrimInside(key);
    TrimLeftSum(key, "=" + ValuePart(ln));
    TrimLeftStart(key);
    TrimRightKeepsFirst(TrimLeft(key));
    assert ln == key + ("=" + ValuePart(ln));
    TrimRightKeepsFirst(TrimLeft(ln));
  }

  /** Trimming adds no character. */
  lemma TrimInside(s: string)
    ensures TrimLeft(s) == "" ==> Trim(s) == ""
    ensures forall c :: c in Trim(s) ==> c in s
  {
    TrimLeftInside(s);
    TrimRightInside(TrimLeft(s));
  }

  lemma {:induction false} TrimLeftInside(s: string)
    ensures forall c :: c in TrimLeft(s) ==> c in s
  {
    if s != "" && IsSpace(s[0]) { TrimLeftInside(s[1..]); }
  }

  lemma {:induction false} TrimRightInside(s: string)
    ensures forall c :: c in TrimRight(s) ==> c in s
  {
    if s != "" && IsSpace(s[|s| - 1]) { TrimRightInside(s[..|s| - 1]); }
  }

  /** A name that the writer accepts and that names itself when read back. */
  predicate PlainName(n: string) {
    n != "" && Trimmed(n) && n[0] != '#' && '=' !in n && OneLine(n)
  }

  lemma {:induction false} TrimRightKeepsFirst(s: string)
    requires s != "" && !IsSpace(s[0])
    ensures TrimRight(s) != "" && TrimRight(s)[0] == s[0]
  {
    if IsSpace(s[|s| - 1]) { TrimRightKeepsFirst(s[..|s| - 1]); }
  }

  lemma {:induction false} TrimLeftStart(s: string)
    ensures TrimLeft(s) == "" || !IsSpace(TrimLeft(s)[0])
  {
    if s != "" && IsSpace(s[0]) { TrimLeftStart(s[1..]); }
  }

  lemma TrimStart(s: string)
    ensures Trim(s) == "" || !IsSpace(Trim(s)[0])
  {
    TrimLeftStart(s);
    if TrimLeft(s) != "" { TrimRightKeepsFirst(TrimLeft(s)); }
  }

  lemma WrittenLine(n: string, v: string)
    requires PlainName(n)
    ensures LineKey(n + "=" + v) == Some(n) && LineValue(n + "=" + v) == Trim(v)
  {
    var ln := n + "=" + v;
    Parts(n, v);
    assert ln[0] == n[0];
    TrimRightKeepsFirst(ln);
    TrimOfTrimmed(n);
  }
}
