/** `set_env_persistent`: one variable rewritten in the env file that holds it,
    line by line, and what a fresh process then loads. */
module EnvPersist {
  import opened Text
  import opened EnvText
  import EnvLoad

  type Env = EnvLoad.Env

  // ----- rewriting the lines ---------------------------------------------

  predicate Defines(ln: string, name: string) { LineKey(ln) == Some(name) }

  predicate AnyDefines(lines: seq<string>, name: string) {
    exists i :: 0 <= i < |lines| && Defines(lines[i], name)
  }

  /** Each line that defines the name, replaced. */
  function Replaced(lines: seq<string>, name: string, value: string): (out: seq<string>)
    ensures |out| == |lines|
  {
    seq(|lines|, i requires 0 <= i < |lines| =>
      if Defines(lines[i], name) then name + "=" + value else lines[i])
  }

  /** The lines `_rewrite_env_key` writes. */
  function Rewritten(lines: seq<string>, name: string, value: string): seq<string> {
    if AnyDefines(lines, name) then Replaced(lines, name, value) else lines + [name + "=" + value]
  }

  /** The lines that do not define the name, in order. */
  function Others(lines: seq<string>, name: string): seq<string> {
    if lines == [] then []
    else (if Defines(lines[0], name) then [] else [lines[0]]) + Others(lines[1..], name)
  }

  lemma {:induction false} ReplacedTail(lines: seq<string>, name: string, value: string)
    requires lines != []
    ensures Replaced(lines, name, value)[1..] == Replaced(lines[1..], name, value)
  {}

  lemma {:induction false} OthersOfReplaced(lines: seq<string>, name: string, value: string)
    requires PlainName(name)
    ensures Others(Replaced(lines, name, value), name) == Others(lines, name)
  {
    if lines != [] {
      WrittenLine(name, value);
      ReplacedTail(lines, name, value);
      OthersOfReplaced(lines[1..], name, value);
    }
  }

  lemma {:induction false} OthersOfMore(lines: seq<string>, ln: string, name: string)
    requires Defines(ln, name)
    ensures Others(lines + [ln], name) == Others(lines, name)
  {
    if lines == [] {
      assert ([] + [ln])[1..] == [];
    } else {
      OthersOfMore(lines[1..], ln, name);
      assert (lines + [ln])[1..] == lines[1..] + [ln];
    }
  }

  /** Every line that does not define the name is kept, in its place among them. */
  lemma OthersKept(lines: seq<string>, name: string, value: string)
    requires PlainName(name)
    ensures Others(Rewritten(lines, name, value), name) == Others(lines, name)
  {
    if AnyDefines(lines, name) {
      OthersOfReplaced(lines, name, value);
    } else {
      WrittenLine(name, value);
      OthersOfMore(lines, name + "=" + value, name);
    }
  }

  lemma BindWritten(m: Env, name: string, value: string)
    requires PlainName(name)
    ensures Bind(m, name + "=" + value) == m[name := Trim(value)]
  {
    WrittenLine(name, value);
  }

  lemma BindOther(m: Env, name: string, value: string, ln: string)
    requires !Defines(ln, name)
    ensures Bind(m[name := value], ln) == Bind(m, ln)[name := value]
  {}

  lemma BindTwice(m: Env, name: string, value: string, ln: string)
    requires Defines(ln, name)
    ensures Bind(m, ln)[name := value] == m[name := value]
  {}

  lemma ReplacedInit(lines: seq<string>, name: string, value: string)
    requires lines != []
    ensures var n := |lines| - 1;
      Replaced(lines, name, value)[..n] == Replaced(lines[..n], name, value)
    ensures AnyDefines(lines, name)
       <==> AnyDefines(lines[..|lines| - 1], name) || Defines(lines[|lines| - 1], name)
  {}

  lemma {:induction false} ParseReplaced(lines: seq<string>, name: string, value: string)
    requires PlainName(name)
    ensures ParseLines(Replaced(lines, name, value))
         == if AnyDefines(lines, name) then ParseLines(lines)[name := Trim(value)] else ParseLines(lines)
  {
    if lines != [] {
      var n := |lines| - 1;
      var m := ParseLines(lines[..n]);
      ParseReplaced(lines[..n], name, value);
      ReplacedInit(lines, name, value);
      BindWritten(if AnyDefines(lines[..n], name) then m[name := Trim(value)] else m, name, value);
      if Defines(lines[n], name) {
        BindTwice(m, name, Trim(value), lines[n]);
      } else {
        BindOther(m, name, Trim(value), lines[n]);
      }
    }
  }

  /** The file then reads as before, but for the one variable. */
  lemma ParseRewritten(lines: seq<string>, name: string, value: string)
    requires PlainName(name)
    ensures ParseLines(Rewritten(lines, name, value)) == ParseLines(lines)[name := Trim(value)]
  {
    ParseReplaced(lines, name, value);
    if !AnyDefines(lines, name) { ParseAppended(lines, name, value); }
  }

  lemma ParseAppended(lines: seq<string>, name: string, value: string)
    requires PlainName(name)
    ensures ParseLines(lines + [name + "=" + value]) == ParseLines(lines)[name := Trim(value)]
  {
    var out := lines + [name + "=" + value];
    assert out[..|lines|] == lines;
    BindWritten(ParseLines(lines), name, value);
  }

  // ----- the text of the file --------------------------------------------

  /** The content of an env file after `_rewrite_env_key`; None is no file. */
  function RewrittenFile(file: Option<string>, name: string, value: string): string {
    JoinLines(Rewritten(WriterLines(file), name, value))
  }

  function ParseFile(file: Option<string>): Env {
    if file.Some? then ParseEnv(file.value) else map[]
  }

  /** The lines of the file as the writer reads them. */
  function WriterLines(file: Option<string>): seq<string> {
    if file.Some? then SplitLines(file.value) else []
  }

  lemma WriterLinesAreOneLine(file: Option<string>)
    ensures AllOneLine(WriterLines(file))
  {
    if file.Some? { SplitIsOneLine(file.value); }
  }

  /** What `set_env_persistent` refuses outright. */
  predicate Refused(name: string, value: string) {
    '\r' in value || '\n' in value || name == "" || '=' in name || '\r' in name || '\n' in name
  }

  /** The filter of the parser, on the variables of the lines. */
  lemma FilterAfterWrite(m: Env, name: string, value: string)
    requires !HasSubstitution(value)
    ensures WithoutSubstitutions(m[name := value]) == WithoutSubstitutions(m)[name := value]
  {}

  lemma RewrittenWithoutNewlines(lines: seq<string>, name: string, value: string)
    requires AllOneLine(lines) && !Refused(name, value)
    ensures Rewritten(lines, name, value) != []
    ensures forall i :: 0 <= i < |Rewritten(lines, name, value)| ==> '\n' !in Rewritten(lines, name, value)[i]
  {
    assert '\n' !in name + "=" + value;
  }

  /** What the loader makes of a rewritten file, whatever the file and the value:
      the variables of the lines the writer read, and the new one. */
  lemma ParseAfterWrite(file: Option<string>, name: string, value: string)
    requires PlainName(name) && !Refused(name, value)
    ensures ParseEnv(RewrittenFile(file, name, value))
         == WithoutSubstitutions(ParseLines(WriterLines(file))[name := Trim(value)])
  {
    var lines := WriterLines(file);
    var out := Rewritten(lines, name, value);
    WriterLinesAreOneLine(file);
    RewrittenWithoutNewlines(lines, name, value);
    JoinEmptyLast(out);
    SplitJoin(out + [""], '\n');
    ParseEmptyLast(out);
    ParseRewritten(lines, name, value);
  }

  /** Do writer and loader agree on what the file says of a variable? */
  predicate ReadsAlike(file: Option<string>, k: string) {
    EnvLoad.Get(WithoutSubstitutions(ParseLines(WriterLines(file))), k) == EnvLoad.Get(ParseFile(file), k)
  }

  /** A file in which lines end only at line feeds. */
  predicate Uniform(file: Option<string>) { file.Some? ==> LineFeedsOnly(file.value) }

  lemma UniformReadsAlike(file: Option<string>)
    requires Uniform(file)
    ensures WithoutSubstitutions(ParseLines(WriterLines(file))) == ParseFile(file)
  {
    if file.Some? { UniformText(file.value); }
  }

  /** One write leaves another variable alone exactly if writer and loader agree
      on what the file said of it; the value written never matters. */
  lemma OneWriteLeavesAlone(file: Option<string>, name: string, value: string, k: string)
    requires PlainName(name) && !Refused(name, value) && k != name
    ensures EnvLoad.Get(ParseEnv(RewrittenFile(file, name, value)), k) == EnvLoad.Get(ParseFile(file), k)
       <==> ReadsAlike(file, k)
  {
    ParseAfterWrite(file, name, value);
  }

  /** Reading the file back gives the new value and leaves all others. */
  lemma ParseRewrittenFile(file: Option<string>, name: string, value: string)
    requires PlainName(name) && !Refused(name, value) && Trimmed(value) && !HasSubstitution(value) && Uniform(file)
    ensures ParseEnv(RewrittenFile(file, name, value)) == ParseFile(file)[name := value]
  {
    ParseAfterWrite(file, name, value);
    UniformReadsAlike(file);
    TrimOfTrimmed(value);
    FilterAfterWrite(ParseLines(WriterLines(file)), name, value);
  }

  // ----- lines that break where the loader sees none ---------------------

  /** What a value leaves on lines of its own, once `splitlines` has read it. */
  function Leftover(value: string): seq<string> { Breaks(value)[1..] }

  lemma WrittenPieces(name: string, value: string)
    requires OneLine(name)
    ensures Breaks(name + "=" + value) == [name + "=" + Breaks(value)[0]] + Leftover(value)
  {
    OneLineSum(name, "");
    assert name + "=" + "" == name + "=";
    BreaksWithPrefix(name + "=", value);
  }

  lemma {:induction false} GetOfSum(a: seq<string>, b: seq<string>, k: string)
    ensures EnvLoad.Get(ParseLines(a + b), k)
         == EnvLoad.OrElse(EnvLoad.Get(ParseLines(b), k), EnvLoad.Get(ParseLines(a), k))
  {
    if b == [] {
      assert a + b == a;
    } else {
      var n := |b| - 1;
      GetOfSum(a, b[..n], k);
      assert (a + b)[..|a + b| - 1] == a + b[..n];
    }
  }

  lemma GetOfOne(ln: string, k: string)
    requires LineKey(ln) != Some(k)
    ensures EnvLoad.Get(ParseLines([ln]), k) == None
  {
    assert [ln][..0] == [];
  }

  /** The lines of a written file, read by the writer again, say the same of a
      variable that what the value left behind does not define. */
  lemma {:induction false} PiecesSayTheSame(lines: seq<string>, name: string, value: string, k: string)
    requires AllOneLine(lines) && PlainName(name) && k != name && k !in ParseLines(Leftover(value))
    ensures EnvLoad.Get(ParseLines(Pieces(Replaced(lines, name, value))), k) == EnvLoad.Get(ParseLines(lines), k)
  {
    if lines != [] {
      var out := Replaced(lines, name, value);
      PiecesSayTheSame(lines[1..], name, value, k);
      ReplacedTail(lines, name, value);
      assert [lines[0]] + lines[1..] == lines;
      GetOfSum([lines[0]], lines[1..], k);
      GetOfSum(Breaks(out[0]), Pieces(out[1..]), k);
      if Defines(lines[0], name) {
        WrittenSaysNothing(name, value, k);
        GetOfOne(lines[0], k);
      } else {
        BreaksOfOneLine(lines[0]);
      }
    }
  }

  lemma WrittenSaysNothing(name: string, value: string, k: string)
    requires PlainName(name) && k != name
    ensures EnvLoad.Get(ParseLines(Breaks(name + "=" + value)), k)
         == EnvLoad.Get(ParseLines(Leftover(value)), k)
  {
    WrittenPieces(name, value);
    var first := name + "=" + Breaks(value)[0];
    WrittenLine(name, Breaks(value)[0]);
    GetOfOne(first, k);
    GetOfSum([first], Leftover(value), k);
  }

  lemma {:induction false} PiecesOfSum(a: seq<string>, b: seq<string>)
    ensures Pieces(a + b) == Pieces(a) + Pieces(b)
  {
    if a == [] {
      assert a + b == b;
    } else {
      PiecesOfSum(a[1..], b);
      TailOfSum(a, b);
      Regroup(Breaks(a[0]), Pieces(a[1..]), Pieces(b));
    }
  }

  lemma PiecesOfRewritten(lines: seq<string>, name: string, value: string, k: string)
    requires AllOneLine(lines) && PlainName(name) && k != name && k !in ParseLines(Leftover(value))
    ensures EnvLoad.Get(ParseLines(Pieces(Rewritten(lines, name, value))), k) == EnvLoad.Get(ParseLines(lines), k)
  {
    if AnyDefines(lines, name) {
      PiecesSayTheSame(lines, name, value, k);
    } else {
      var ln := name + "=" + value;
      NoneReplaced(lines, name, value);
      PiecesSayTheSame(lines, name, value, k);
      PiecesOfSum(lines, [ln]);
      assert Pieces([ln]) == Breaks(ln) by { assert [ln][1..] == []; }
      WrittenSaysNothing(name, value, k);
      GetOfSum(Pieces(lines), Breaks(ln), k);
    }
  }

  lemma {:induction false} NoneReplaced(lines: seq<string>, name: string, value: string)
    requires !AnyDefines(lines, name)
    ensures Replaced(lines, name, value) == lines
  {
    if lines != [] {
      assert !Defines(lines[0], name);
      forall i | 0 <= i < |lines[1..]| ensures !Defines(lines[1..][i], name) { assert lines[1..][i] == lines[i + 1]; }
      NoneReplaced(lines[1..], name, value);
      ReplacedTail(lines, name, value);
    }
  }

  /** The file after two writes. */
  function TwiceRewritten(file: Option<string>, name: string, value: string, name2: string, value2: string): string {
    RewrittenFile(Some(RewrittenFile(file, name, value)), name2, value2)
  }

  ghost predicate TwoWritesLeaveAlone(file: Option<string>, name: string, value: string, name2: string, value2: string,
                                      k: string)
  {
    EnvLoad.Get(ParseEnv(TwiceRewritten(file, name, value, name2, value2)), k) == EnvLoad.Get(ParseFile(file), k)
  }

  lemma GetFiltered(m: Env, m': Env, k: string)
    requires EnvLoad.Get(m, k) == EnvLoad.Get(m', k)
    ensures EnvLoad.Get(WithoutSubstitutions(m), k) == EnvLoad.Get(WithoutSubstitutions(m'), k)
  {}

  lemma AfterTwoWrites(file: Option<string>, name: string, value: string, name2: string, value2: string, k: string)
    requires PlainName(name) && !Refused(name, value) && PlainName(name2) && !Refused(name2, value2) && k != name2
    ensures EnvLoad.Get(ParseEnv(TwiceRewritten(file, name, value, name2, value2)), k)
         == EnvLoad.Get(WithoutSubstitutions(ParseLines(Pieces(Rewritten(WriterLines(file), name, value)))), k)
  {
    var once := RewrittenFile(file, name, value);
    ParseAfterWrite(Some(once), name2, value2);
    WriterLinesAreOneLine(file);
    RewrittenWithoutNewlines(WriterLines(file), name, value);
    SplitJoinPieces(Rewritten(WriterLines(file), name, value));
  }

  // ----- what becomes of the value itself --------------------------------

  /** The number of characters that are not blank. */
  function Visible(s: string): nat {
    if s == "" then 0 else (if IsSpace(s[0]) then 0 else 1) + Visible(s[1..])
  }

  lemma {:induction false} VisibleSum(a: string, b: string)
    ensures Visible(a + b) == Visible(a) + Visible(b)
  {
    if a == "" {
      assert a + b == b;
    } else {
      VisibleSum(a[1..], b);
      TailOfSum(a, b);
    }
  }

  lemma {:induction false} VisibleTrimLeft(s: string)
    ensures Visible(TrimLeft(s)) == Visible(s)
  {
    if s != "" && IsSpace(s[0]) { VisibleTrimLeft(s[1..]); }
  }

  lemma {:induction false} VisibleTrimRight(s: string)
    ensures Visible(TrimRight(s)) == Visible(s)
  {
    if s != "" && IsSpace(s[|s| - 1]) {
      var n := |s| - 1;
      VisibleTrimRight(s[..n]);
      VisibleSum(s[..n], [s[n]]);
      assert s[..n] + [s[n]] == s;
    }
  }

  lemma VisibleTrim(s: string)
    ensures Visible(Trim(s)) == Visible(s)
  {
    VisibleTrimLeft(s);
    VisibleTrimRight(TrimLeft(s));
  }

  /** Blanks at the end are trimmed, and nothing before a visible character is. */
  lemma {:induction false} TrimRightOfSum(a: string, b: string)
    ensures TrimRight(a + b) == if Visible(b) == 0 then TrimRight(a) else a + TrimRight(b)
  {
    if b == "" {
      assert a + b == a;
    } else {
      var n := |b| - 1;
      assert (a + b)[..|a + b| - 1] == a + b[..n] && (a + b)[|a + b| - 1] == b[n];
      VisibleSum(b[..n], [b[n]]);
      assert b[..n] + [b[n]] == b;
      TrimRightOfSum(a, b[..n]);
    }
  }

  lemma {:induction false} BlankTrims(s: string)
    requires Visible(s) == 0
    ensures TrimLeft(s) == "" && Trim(s) == ""
  {
    if s != "" { BlankTrims(s[1..]); }
  }

  lemma TrimBeforeBlanks(a: string, b: string)
    requires Visible(b) == 0
    ensures Trim(a + b) == Trim(a)
  {
    VisibleSum(a, b);
    VisibleTrimLeft(a);
    if Visible(a) == 0 {
      BlankTrims(a);
      BlankTrims(a + b);
    } else {
      TrimLeftSum(a, b);
      TrimRightOfSum(TrimLeft(a), b);
    }
  }

  /** No piece shows more than the whole. */
  lemma {:induction false} PiecesShowLess(s: string)
    ensures forall i :: 0 <= i < |Breaks(s)| ==> Visible(Breaks(s)[i]) <= Visible(s)
  {
    if s != "" {
      var rest := Breaks(s[1..]);
      PiecesShowLess(s[1..]);
      VisibleSum([s[0]], rest[0]);
      assert ([s[0]] + rest[0])[1..] == rest[0];
      forall i | 0 <= i < |Breaks(s)| ensures Visible(Breaks(s)[i]) <= Visible(s) {
        if IsLineBreak(s[0]) {
          if i > 0 { assert Breaks(s)[i] == rest[i - 1]; }
        } else if i > 0 {
          assert Breaks(s)[i] == rest[i];
        }
      }
    }
  }

  /** What a line assigns shows less than the line. */
  lemma ValueShowsLess(ln: string)
    requires IsAssignment(ln)
    ensures Visible(LineValue(ln)) < Visible(ln)
  {
    PartsOf(ln);
    VisibleTrim(ValuePart(ln));
    VisibleSum(KeyPart(ln) + "=", ValuePart(ln));
    VisibleSum(KeyPart(ln), "=");
    assert "="[1..] == "" && Visible("=") == 1;
  }

  lemma {:induction false} BoundShowsLess(lines: seq<string>, k: string, n: nat)
    requires forall i :: 0 <= i < |lines| ==> Visible(lines[i]) <= n
    requires k in ParseLines(lines)
    ensures Visible(ParseLines(lines)[k]) < n
  {
    var ln := lines[|lines| - 1];
    if LineKey(ln) == Some(k) && k != "" {
      ValueShowsLess(ln);
    } else {
      BoundShowsLess(lines[..|lines| - 1], k, n);
    }
  }

  /** What the lines of a written value say of its own variable: what it left on
      lines of its own, if that defines the variable, and else its first line. */
  function SaysOfItself(name: string, value: string): string {
    var left := ParseLines(Leftover(value));
    if name in left then left[name] else Trim(Breaks(value)[0])
  }

  lemma {:induction false} FirstBreak(s: string) returns (rest: string)
    ensures if OneLine(s) then Breaks(s) == [s] && rest == ""
            else |Breaks(s)[0]| < |s| && IsLineBreak(s[|Breaks(s)[0]|])
                 && s == Breaks(s)[0] + [s[|Breaks(s)[0]|]] + rest && Leftover(s) == Breaks(rest)
  {
    if s == "" {
      rest := "";
    } else if IsLineBreak(s[0]) {
      rest := s[1..];
      assert !OneLine(s);
      assert s == "" + [s[0]] + rest;
    } else {
      rest := FirstBreak(s[1..]);
      assert s == [s[0]] + s[1..];
      if OneLine(s[1..]) {
        assert OneLine(s) && rest == "";
      } else {
        var head := Breaks(s[1..])[0];
        assert Breaks(s)[0] == [s[0]] + head;
        assert [s[0]] + (head + [s[1..][|head|]] + rest) == [s[0]] + head + [s[1..][|head|]] + rest;
      }
    }
  }

  /** It is the value that was written exactly if no line break stands before a
      visible character. */
  lemma SaysItsValue(name: string, value: string)
    ensures SaysOfItself(name, value) == Trim(value) <==> OneLine(TrimRight(value))
  {
    var rest := FirstBreak(value);
    if OneLine(value) {
      TrimRightOneLine(value);
    } else {
      var head := Breaks(value)[0];
      var tail := [value[|head|]] + rest;
      assert value == head + tail;
      assert tail[1..] == rest && Visible(tail) == Visible(rest);
      VisibleSum(head, tail);
      TrimRightOfSum(head, tail);
      PiecesShowLess(rest);
      if Visible(rest) == 0 {
        TrimBeforeBlanks(head, tail);
        TrimRightOneLine(head);
        if name in ParseLines(Breaks(rest)) { BoundShowsLess(Breaks(rest), name, 0); }
      } else {
        SaysLess(name, value, head, rest);
        BreakStays(head, tail);
      }
    }
  }

  lemma SaysLess(name: string, value: string, head: string, rest: string)
    requires head == Breaks(value)[0] && Leftover(value) == Breaks(rest) && Visible(rest) > 0
    requires Visible(value) == Visible(head) + Visible(rest)
    ensures SaysOfItself(name, value) != Trim(value)
  {
    VisibleTrim(value);
    VisibleTrim(head);
    PiecesShowLess(rest);
    if name in ParseLines(Breaks(rest)) { BoundShowsLess(Breaks(rest), name, Visible(rest)); }
  }

  lemma BreakStays(head: string, tail: string)
    requires tail != "" && IsLineBreak(tail[0]) && Visible(tail) > 0
    ensures !OneLine(head + TrimRight(tail))
  {
    assert tail == [tail[0]] + tail[1..];
    TrimRightOfSum([tail[0]], tail[1..]);
    assert (head + TrimRight(tail))[|head|] == tail[0];
  }

  lemma WrittenSaysOfItself(name: string, value: string)
    requires PlainName(name)
    ensures EnvLoad.Get(ParseLines(Breaks(name + "=" + value)), name) == Some(SaysOfItself(name, value))
  {
    WrittenPieces(name, value);
    var first := name + "=" + Breaks(value)[0];
    WrittenLine(name, Breaks(value)[0]);
    assert [first][..0] == [];
    GetOfSum([first], Leftover(value), name);
  }

  lemma {:induction false} ReplacedSayOfIt(lines: seq<string>, name: string, value: string)
    requires AllOneLine(lines) && PlainName(name)
    ensures EnvLoad.Get(ParseLines(Pieces(Replaced(lines, name, value))), name)
         == if AnyDefines(lines, name) then Some(SaysOfItself(name, value)) else None
  {
    if lines != [] {
      var out := Replaced(lines, name, value);
      ReplacedSayOfIt(lines[1..], name, value);
      ReplacedTail(lines, name, value);
      AnyDefinesTail(lines, name);
      GetOfSum(Breaks(out[0]), Pieces(out[1..]), name);
      if Defines(lines[0], name) {
        WrittenSaysOfItself(name, value);
      } else {
        BreaksOfOneLine(lines[0]);
        GetOfOne(lines[0], name);
      }
    }
  }

  lemma AnyDefinesTail(lines: seq<string>, name: string)
    requires lines != []
    ensures AnyDefines(lines, name) <==> Defines(lines[0], name) || AnyDefines(lines[1..], name)
  {
    if AnyDefines(lines, name) && !Defines(lines[0], name) {
      var i :| 0 <= i < |lines| && Defines(lines[i], name);
      assert lines[1..][i - 1] == lines[i];
    }
    if AnyDefines(lines[1..], name) {
      var i :| 0 <= i < |lines[1..]| && Defines(lines[1..][i], name);
      assert lines[i + 1] == lines[1..][i];
    }
  }

  lemma RewrittenSayOfIt(lines: seq<string>, name: string, value: string)
    requires AllOneLine(lines) && PlainName(name)
    ensures EnvLoad.Get(ParseLines(Pieces(Rewritten(lines, name, value))), name) == Some(SaysOfItself(name, value))
  {
    ReplacedSayOfIt(lines, name, value);
    if !AnyDefines(lines, name) {
      var ln := name + "=" + value;
      PiecesOfSum(lines, [ln]);
      assert Pieces([ln]) == Breaks(ln) by { assert [ln][1..] == []; }
      WrittenSaysOfItself(name, value);
      GetOfSum(Pieces(lines), Breaks(ln), name);
    }
  }

  /** After another variable is written, the loader still finds the value written
      first, in every file, exactly if no line break stands in it before a visible
      character (and it holds no substitution, which the loader always drops). */
  lemma ValueSurvivesExactly(file: Option<string>, name: string, value: string, name2: string, value2: string)
    requires PlainName(name) && !Refused(name, value) && PlainName(name2) && !Refused(name2, value2) && name2 != name
    ensures EnvLoad.Get(ParseEnv(TwiceRewritten(file, name, value, name2, value2)), name) == Some(Trim(value))
       <==> OneLine(TrimRight(value)) && !HasSubstitution(Trim(value))
  {
    AfterTwoWrites(file, name, value, name2, value2, name);
    WriterLinesAreOneLine(file);
    RewrittenSayOfIt(WriterLines(file), name, value);
    SaysItsValue(name, value);
  }

  // ----- what becomes of the others --------------------------------------

  /** After a second write a variable is still as it was, in every file, exactly if
      what the first value left on lines of its own does not define it. */
  lemma TwoWritesExactly(name: string, value: string, name2: string, value2: string, k: string)
    requires PlainName(name) && !Refused(name, value) && PlainName(name2) && !Refused(name2, value2)
    requires k != name && k != name2
    ensures (forall file :: Uniform(file) ==> TwoWritesLeaveAlone(file, name, value, name2, value2, k))
       <==> k !in ParseLines(Leftover(value))
  {
    if k in ParseLines(Leftover(value)) {
      var file := LeftoverOverrides(name, value, name2, value2, k);
    } else {
      forall file | Uniform(file) ensures TwoWritesLeaveAlone(file, name, value, name2, value2, k) {
        AfterTwoWrites(file, name, value, name2, value2, k);
        WriterLinesAreOneLine(file);
        PiecesOfRewritten(WriterLines(file), name, value, k);
        GetFiltered(ParseLines(Pieces(Rewritten(WriterLines(file), name, value))), ParseLines(WriterLines(file)), k);
        UniformReadsAlike(file);
      }
    }
  }

  lemma {:induction false} BoundIsPlain(lines: seq<string>, k: string)
    requires AllOneLine(lines) && k in ParseLines(lines)
    ensures PlainName(k)
  {
    var n := |lines| - 1;
    if LineKey(lines[n]) == Some(k) && k != "" {
      KeyIsPlain(lines[n]);
    } else {
      BoundIsPlain(lines[..n], k);
    }
  }

  /** A value the file held, but which is not the one left over. */
  function Other(v: string): string { if v == "x" then "y" else "x" }

  lemma LeftoverOverrides(name: string, value: string, name2: string, value2: string, k: string)
      returns (file: Option<string>)
    requires PlainName(name) && !Refused(name, value) && PlainName(name2) && !Refused(name2, value2)
    requires k != name && k != name2 && k in ParseLines(Leftover(value))
    ensures Uniform(file) && !TwoWritesLeaveAlone(file, name, value, name2, value2, k)
  {
    var v := Other(ParseLines(Leftover(value))[k]);
    BoundIsPlain(Leftover(value), k);
    OneLineSum(k, v);
    file := Some(JoinLines([k + "=" + v]));
    OneLineFile(k, v);
    WrittenLine(k, v);
    AfterTwoWrites(file, name, value, name2, value2, k);
    LeftoverWins([k + "=" + v], name, value, k);
    NotTheSame(ParseLines(Pieces(Rewritten([k + "=" + v], name, value))), k, v);
  }

  lemma NotTheSame(m: Env, k: string, v: string)
    requires k in m && m[k] != v
    ensures EnvLoad.Get(WithoutSubstitutions(m), k) != Some(v)
  {}

  lemma OneLineFile(k: string, v: string)
    requires PlainName(k) && (v == "x" || v == "y")
    ensures var file := Some(JoinLines([k + "=" + v]));
      Uniform(file) && WriterLines(file) == [k + "=" + v] && EnvLoad.Get(ParseFile(file), k) == Some(v)
  {
    var ln := k + "=" + v;
    OneLineSum(k, v);
    SplitJoinLines([ln]);
    JoinEmptyLast([ln]);
    SplitJoin([ln] + [""], '\n');
    ParseEmptyLast([ln]);
    ParseOne(k, v);
    assert ([ln] + [""])[0] == ln && ([ln] + [""])[1] == "";
  }

  lemma ParseOne(k: string, v: string)
    requires PlainName(k) && (v == "x" || v == "y")
    ensures ParseLines([k + "=" + v]) == map[k := v] && !HasSubstitution(v)
  {
    WrittenLine(k, v);
    TrimOfTrimmed(v);
    assert [k + "=" + v][..0] == [];
  }

  lemma LeftoverWins(lines: seq<string>, name: string, value: string, k: string)
    requires PlainName(name) && k != name && k in ParseLines(Leftover(value)) && |lines| == 1
    requires OneLine(lines[0]) && LineKey(lines[0]) == Some(k)
    ensures EnvLoad.Get(ParseLines(Pieces(Rewritten(lines, name, value))), k) == Some(ParseLines(Leftover(value))[k])
  {
    var ln := name + "=" + value;
    assert !AnyDefines(lines, name);
    PiecesOfSum(lines, [ln]);
    assert Pieces([ln]) == Breaks(ln) by { assert [ln][1..] == []; }
    WrittenSaysNothing(name, value, k);
    GetOfSum(Pieces(lines), Breaks(ln), k);
  }

  // ----- names -----------------------------------------------------------

  /** Some accepted names are never found again: a name is defined in the file
      that was written for it exactly if it has no outer blanks, does not start a
      comment, and holds none of the characters at which `splitlines` breaks. */
  lemma NameFoundInFile(file: Option<string>, name: string, value: string)
    requires !Refused(name, value)
    ensures AnyDefines(SplitLines(RewrittenFile(file, name, value)), name)
       <==> Trimmed(name) && name[0] != '#' && OneLine(name)
  {
    var lines := SplitLines(RewrittenFile(file, name, value));
    SplitIsOneLine(RewrittenFile(file, name, value));
    if AnyDefines(lines, name) {
      var i :| 0 <= i < |lines| && Defines(lines[i], name);
      KeyIsPlain(lines[i]);
    }
    if PlainName(name) {
      var out := Rewritten(WriterLines(file), name, value);
      WriterLinesAreOneLine(file);
      RewrittenWithoutNewlines(WriterLines(file), name, value);
      SplitJoinPieces(out);
      var i := WrittenAt(WriterLines(file), name, value);
      PiecesDefine(out, i, name, value);
    }
  }

  lemma WrittenAt(lines: seq<string>, name: string, value: string) returns (i: nat)
    ensures i < |Rewritten(lines, name, value)| && Rewritten(lines, name, value)[i] == name + "=" + value
  {
    if AnyDefines(lines, name) {
      i :| 0 <= i < |lines| && Defines(lines[i], name);
      ReplacedAt(lines, name, value, i);
    } else {
      i := |lines|;
    }
  }

  lemma {:induction false} ReplacedAt(lines: seq<string>, name: string, value: string, i: nat)
    requires i < |lines| && Defines(lines[i], name)
    ensures Replaced(lines, name, value)[i] == name + "=" + value
  {
    if i > 0 {
      ReplacedTail(lines, name, value);
      ReplacedAt(lines[1..], name, value, i - 1);
    }
  }

  lemma {:induction false} PiecesDefine(out: seq<string>, i: nat, name: string, value: string)
    requires i < |out| && out[i] == name + "=" + value && PlainName(name)
    ensures AnyDefines(Pieces(out), name)
  {
    var head := Breaks(out[0]);
    if i == 0 {
      WrittenDefines(name, value);
      DefinesInSum(head, Pieces(out[1..]), name);
    } else {
      PiecesDefine(out[1..], i - 1, name, value);
      DefinesInSum(head, Pieces(out[1..]), name);
    }
  }

  lemma WrittenDefines(name: string, value: string)
    requires PlainName(name)
    ensures AnyDefines(Breaks(name + "=" + value), name)
  {
    WrittenPieces(name, value);
    WrittenLine(name, Breaks(value)[0]);
    assert Defines(Breaks(name + "=" + value)[0], name);
  }

  lemma DefinesInSum(a: seq<string>, b: seq<string>, name: string)
    requires AnyDefines(a, name) || AnyDefines(b, name)
    ensures AnyDefines(a + b, name)
  {
    if AnyDefines(a, name) {
      var i :| 0 <= i < |a| && Defines(a[i], name);
      assert (a + b)[i] == a[i];
    } else {
      var i :| 0 <= i < |b| && Defines(b[i], name);
      assert (a + b)[|a| + i] == b[i];
    }
  }

  /** Names of two characters. */
  lemma ShortNameFound(file: Option<string>, a: char, b: char, value: string)
    requires !Refused([a, b], value)
    ensures AnyDefines(SplitLines(RewrittenFile(file, [a, b], value)), [a, b])
       <==> !IsSpace(a) && !IsSpace(b) && a != '#'
  {
    NameFoundInFile(file, [a, b], value);
    if !IsSpace(a) && !IsSpace(b) { assert OneLine([a, b]); }
  }

  /** A name that breaks in its middle. */
  lemma BrokenNameLost(file: Option<string>, a: char, b: char, value: string)
    requires !Refused([a, '\U{0B}', b], value)
    ensures !AnyDefines(SplitLines(RewrittenFile(file, [a, '\U{0B}', b], value)), [a, '\U{0B}', b])
  {
    var name := [a, '\U{0B}', b];
    assert IsLineBreak(name[1]);
    NameFoundInFile(file, name, value);
  }

  // ----- persist, then load ----------------------------------------------

  /** The two env files a write may go to. */
  datatype Disk = Disk(project: Option<string>, system: Option<string>)

  predicate FileDefines(file: Option<string>, name: string) {
    file.Some? && AnyDefines(SplitLines(file.value), name)
  }

  /** `_env_file_for`: the system file if a line of it defines the name, whatever
      the project file holds. */
  predicate GoesToSystem(disk: Disk, name: string) { FileDefines(disk.system, name) }

  function Persisted(disk: Disk, name: string, value: string): Disk {
    if GoesToSystem(disk, name)
    then disk.(system := Some(RewrittenFile(disk.system, name, value)))
    else disk.(project := Some(RewrittenFile(disk.project, name, value)))
  }

  /** Which file is written, spelled out: the system file if one of its lines
      defines the name, and the project file otherwise. The other stays. */
  lemma SystemFileFirst(disk: Disk, name: string, value: string)
    ensures (disk.system.Some? && exists i :: 0 <= i < |SplitLines(disk.system.value)|
                                     && LineKey(SplitLines(disk.system.value)[i]) == Some(name))
       ==> Persisted(disk, name, value) == Disk(disk.project, Some(RewrittenFile(disk.system, name, value)))
    ensures !(disk.system.Some? && exists i :: 0 <= i < |SplitLines(disk.system.value)|
                                      && LineKey(SplitLines(disk.system.value)[i]) == Some(name))
       ==> Persisted(disk, name, value) == Disk(Some(RewrittenFile(disk.project, name, value)), disk.system)
  {
    if disk.system.Some? {
      var lines := SplitLines(disk.system.value);
      assert forall i :: 0 <= i < |lines| ==> (Defines(lines[i], name) <==> LineKey(lines[i]) == Some(name));
    }
  }

  /** What a fresh process finds for a variable. */
  function FreshValue(real_: Env, disk: Disk, common: Env, platform: Env, k: string): Option<string> {
    EnvLoad.Get(EnvLoad.Loaded(EnvLoad.State(real_, map[]),
      EnvLoad.Files(ParseFile(disk.project), ParseFile(disk.system), common, platform)).environ, k)
  }

  lemma FreshValueAt(real_: Env, disk: Disk, common: Env, platform: Env, k: string)
    ensures FreshValue(real_, disk, common, platform, k)
         == EnvLoad.OrElse(EnvLoad.Get(real_, k), EnvLoad.OrElse(EnvLoad.Get(ParseFile(disk.project), k),
              EnvLoad.OrElse(EnvLoad.Get(ParseFile(disk.system), k),
                EnvLoad.OrElse(EnvLoad.Get(common, k), EnvLoad.Get(platform, k)))))
  {}

  /** After a write, a fresh process finds the value written, exactly if the
      real environment does not hold another, and the project file does not
      hold another while the system file defines the name: the writer prefers
      the system file, the loader the project's. */
  lemma FreshLoadFindsValue(real_: Env, disk: Disk, common: Env, platform: Env, name: string, value: string)
    requires PlainName(name) && !Refused(name, value) && Trimmed(value) && !HasSubstitution(value)
    ensures FreshValue(real_, Persisted(disk, name, value), common, platform, name) == Some(value)
       <==> if name in real_ then real_[name] == value
            else !(disk.system.Some?
                   && (exists i :: 0 <= i < |SplitLines(disk.system.value)|
                                   && LineKey(SplitLines(disk.system.value)[i]) == Some(name))
                   && name in ParseFile(disk.project) && ParseFile(disk.project)[name] != value)
  {
    FreshValueAt(real_, Persisted(disk, name, value), common, platform, name);
    SystemFileFirst(disk, name, value);
    WrittenValue(disk.system, name, value);
    WrittenValue(disk.project, name, value);
  }

  lemma WrittenValue(file: Option<string>, name: string, value: string)
    requires PlainName(name) && !Refused(name, value) && Trimmed(value) && !HasSubstitution(value)
    ensures EnvLoad.Get(ParseEnv(RewrittenFile(file, name, value)), name) == Some(value)
  {
    ParseAfterWrite(file, name, value);
    TrimOfTrimmed(value);
  }

  /** What ranks below the file that is written. */
  function Below(disk: Disk, common: Env, platform: Env, name: string, k: string): Option<string> {
    var defaults := EnvLoad.OrElse(EnvLoad.Get(common, k), EnvLoad.Get(platform, k));
    if GoesToSystem(disk, name) then defaults else EnvLoad.OrElse(EnvLoad.Get(ParseFile(disk.system), k), defaults)
  }

  /** The reading of the file by the writer and by the loader come to the same for
      a process that falls back on `below`. */
  predicate ReadsAlikeAbove(file: Option<string>, k: string, below: Option<string>) {
    EnvLoad.OrElse(EnvLoad.Get(WithoutSubstitutions(ParseLines(WriterLines(file))), k), below)
    == EnvLoad.OrElse(EnvLoad.Get(ParseFile(file), k), below)
  }

  /** A fresh process finds another variable as before, exactly if something that
      outranks the file written holds it, or writer and loader read the same of it
      from that file (what ranks below filling in where one reads nothing). */
  lemma FreshLoadKeepsOthers(real_: Env, disk: Disk, common: Env, platform: Env, name: string, value: string, k: string)
    requires PlainName(name) && !Refused(name, value) && k != name
    ensures FreshValue(real_, Persisted(disk, name, value), common, platform, k)
         == FreshValue(real_, disk, common, platform, k)
       <==> || k in real_ || (GoesToSystem(disk, name) && k in ParseFile(disk.project))
            || ReadsAlikeAbove(if GoesToSystem(disk, name) then disk.system else disk.project, k,
                               Below(disk, common, platform, name, k))
  {
    FreshValueAt(real_, Persisted(disk, name, value), common, platform, k);
    FreshValueAt(real_, disk, common, platform, k);
    ParseAfterWrite(if GoesToSystem(disk, name) then disk.system else disk.project, name, value);
  }

  // ----- the writer ------------------------------------------------------

  lemma ReplacedMore(lines: seq<string>, i: nat, name: string, value: string)
    requires i < |lines|
    ensures Replaced(lines[..i + 1], name, value)
         == Replaced(lines[..i], name, value) + [if Defines(lines[i], name) then name + "=" + value else lines[i]]
    ensures AnyDefines(lines[..i + 1], name) <==> AnyDefines(lines[..i], name) || Defines(lines[i], name)
  {
    var more := lines[..i + 1];
    assert more[..i] == lines[..i] && more[i] == lines[i];
    ReplacedInit(more, name, value);
    ReplacedLast(more, name, value);
  }

  lemma {:induction false} ReplacedLast(lines: seq<string>, name: string, value: string)
    requires lines != []
    ensures var n := |lines| - 1;
      Replaced(lines, name, value)
      == Replaced(lines[..n], name, value) + [if Defines(lines[n], name) then name + "=" + value else lines[n]]
  {
    if |lines| > 1 {
      ReplacedLast(lines[1..], name, value);
      ReplacedTail(lines, name, value);
      assert lines[1..][..|lines| - 2] == lines[..|lines| - 1][1..];
    }
  }

  /** `_rewrite_env_key`, up to the replacement of the file. */
  method RewriteEnvKey(file: Option<string>, name: string, value: string) returns (content: string)
    ensures content == RewrittenFile(file, name, value)
  {
    var lines := if file.Some? then SplitLines(file.value) else [];
    var out: seq<string> := [];
    var found := false;
    for i := 0 to |lines|
      invariant out == Replaced(lines[..i], name, value)
      invariant found <==> AnyDefines(lines[..i], name)
    {
      ReplacedMore(lines, i, name, value);
      if LineKey(lines[i]) == Some(name) {
        out := out + [name + "=" + value];
        found := true;
      } else {
        out := out + [lines[i]];
      }
    }
    assert lines[..|lines|] == lines;
    if !found {
      NoneReplaced(lines, name, value);
      out := out + [name + "=" + value];
    }
    content := JoinLines(out);
  }

  class Writer {
    var disk: Disk
    var environ: Env

    constructor (disk: Disk, environ: Env)
      ensures this.disk == disk && this.environ == environ
    {
      this.disk, this.environ := disk, environ;
    }

    /** `set_env_persistent`, where no write fails. */
    method SetEnvPersistent(name: string, value: string) returns (ok: bool)
      modifies this
      ensures ok <==> name != "" && '=' !in name && '\r' !in name && '\n' !in name && '\r' !in value && '\n' !in value
      ensures disk == if ok then Persisted(old(disk), name, value) else old(disk)
      ensures ok ==>
                var was := old(disk);
                if was.system.Some? && exists i :: 0 <= i < |SplitLines(was.system.value)|
                                         && LineKey(SplitLines(was.system.value)[i]) == Some(name)
                then disk == Disk(was.project, Some(RewrittenFile(was.system, name, value)))
                else disk == Disk(Some(RewrittenFile(was.project, name, value)), was.system)
      ensures environ == if ok then old(environ)[name := value] else old(environ)
    {
      SystemFileFirst(disk, name, value);
      if '\r' in value || '\n' in value { return false; }
      if name == "" || '=' in name || '\r' in name || '\n' in name { return false; }
      if disk.system.Some? && AnyDefines(SplitLines(disk.system.value), name) {
        var content := RewriteEnvKey(disk.system, name, value);
        disk := disk.(system := Some(content));
      } else {
        var content := RewriteEnvKey(disk.project, name, value);
        disk := disk.(project := Some(content));
      }
      environ := environ[name := value];
      return true;
    }
  }
}
