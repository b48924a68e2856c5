/** The migration of legacy names and profile values in an env file. */
module EnvMigration {
  import opened Text
  import opened EnvText
  import EnvLoad

  datatype Change = Change(old_: string, new_: string)

  type Table = seq<(string, string)>

  /** The entries of MIGRATIONS that are variable names. */
  const VAR_MIGRATIONS: Table := [
    ("VNC_REMOTE_PROFILE", "SECURITY_PROFILE"),
    ("CERT_FILE", "SSL_CERT"),
    ("KEY_FILE", "SSL_KEY"),
    ("NOVNC_HOST", "SERVE_NOVNC_HOST")]

  /** The others: aliases of profile values. */
  const VALUE_MIGRATIONS: Table := [
    ("home-lan", "trusted-lan"),
    ("private-vpn", "private-overlay"),
    ("internet-hardened", "public-hardened"),
    ("local-only", "development")]

  predicate IsProfileName(k: string) { k == "SECURITY_PROFILE" || k == "VNC_REMOTE_PROFILE" }

  /** The entry of a table for a name, the first if there were several. */
  function Lookup(table: Table, old_: string): Option<string> {
    if table == [] then None
    else if table[0].0 == old_ then Some(table[0].1)
    else Lookup(table[1..], old_)
  }

  // ----- str.replace -----------------------------------------------------

  /** `s.replace(sub, rep, 1)` */
  function ReplaceFirst(s: string, sub: string, rep: string): string {
    if |s| < |sub| then s
    else if sub <= s then rep + s[|sub|..]
    else [s[0]] + ReplaceFirst(s[1..], sub, rep)
  }

  /** `s.replace(sub, rep)` */
  function ReplaceAll(s: string, sub: string, rep: string): string
    requires sub != ""
  {
    if |s| < |sub| then s
    else if sub <= s then rep + ReplaceAll(s[|sub|..], sub, rep)
    else [s[0]] + ReplaceAll(s[1..], sub, rep)
  }

  predicate AllSpace(s: string) { forall i :: 0 <= i < |s| ==> IsSpace(s[i]) }

  lemma {:induction false} ReplaceAllBlank(b: string, sub: string, rep: string)
    requires AllSpace(b) && sub != "" && !IsSpace(sub[0])
    ensures ReplaceAll(b, sub, rep) == b
  {
    if |b| >= |sub| {
      assert !(sub <= b) by { assert b[0] != sub[0]; }
      ReplaceAllBlank(b[1..], sub, rep);
      assert [b[0]] + b[1..] == b;
    }
  }

  /** Between blanks, `replace` hits exactly the word. */
  lemma {:induction false} ReplaceAllBetweenBlanks(a: string, sub: string, b: string, rep: string)
    requires AllSpace(a) && AllSpace(b) && sub != "" && !IsSpace(sub[0])
    ensures ReplaceAll(a + sub + b, sub, rep) == a + rep + b
  {
    var s := a + sub + b;
    if a == "" {
      assert s == sub + b;
      assert s[|sub|..] == b;
      ReplaceAllBlank(b, sub, rep);
      assert rep + b == a + rep + b;
    } else {
      HeadOfThree(a, sub, b);
      ReplaceAllBetweenBlanks(a[1..], sub, b, rep);
      FrontOfSum(a, rep, b);
    }
  }

  lemma HeadOfThree(a: string, b: string, c: string)
    requires a != ""
    ensures var s := a + b + c;
      s[0] == a[0] && s[1..] == a[1..] + b + c && (b != "" && b[0] != a[0] ==> !(b <= s))
  {}

  /** The first occurrence is the one that no earlier position matches. */
  lemma {:induction false} ReplaceFirstAt(pre: string, sub: string, post: string, rep: string)
    requires forall i :: 0 <= i < |pre| ==> !(sub <= (pre + sub + post)[i..])
    ensures ReplaceFirst(pre + sub + post, sub, rep) == pre + rep + post
  {
    var s := pre + sub + post;
    if pre == "" {
      assert s == sub + post;
      assert s[|sub|..] == post;
      assert rep + post == pre + rep + post;
    } else {
      assert s[0..] == s;
      assert s[1..] == pre[1..] + sub + post;
      forall i | 0 <= i < |pre[1..]| ensures !(sub <= (pre[1..] + sub + post)[i..]) {
        assert s[i + 1..] == s[1..][i..];
      }
      ReplaceFirstAt(pre[1..], sub, post, rep);
      FrontOfSum(pre, rep, post);
    }
  }

  lemma FrontOfSum(pre: string, rep: string, post: string)
    requires pre != ""
    ensures [pre[0]] + (pre[1..] + rep + post) == pre + rep + post
  {}

  // ----- blanks around a word --------------------------------------------

  function LeftBlanks(s: string): (a: string)
    ensures AllSpace(a) && |a| <= |s|
  {
    if s != "" && IsSpace(s[0]) then [s[0]] + LeftBlanks(s[1..]) else ""
  }

  function RightBlanks(s: string): (b: string)
    ensures AllSpace(b) && |b| <= |s|
  {
    if s != "" && IsSpace(s[|s| - 1]) then RightBlanks(s[..|s| - 1]) + [s[|s| - 1]] else ""
  }

  lemma {:induction false} TrimLeftSplits(s: string)
    ensures LeftBlanks(s) + TrimLeft(s) == s
  {
    if s != "" && IsSpace(s[0]) {
      TrimLeftSplits(s[1..]);
      assert [s[0]] + LeftBlanks(s[1..]) + TrimLeft(s[1..]) == [s[0]] + (LeftBlanks(s[1..]) + TrimLeft(s[1..])) == s;
    }
  }

  lemma {:induction false} TrimRightSplits(s: string)
    ensures TrimRight(s) + RightBlanks(s) == s
  {
    if s != "" && IsSpace(s[|s| - 1]) {
      var r := s[..|s| - 1];
      TrimRightSplits(r);
      assert TrimRight(r) + (RightBlanks(r) + [s[|s| - 1]]) == TrimRight(r) + RightBlanks(r) + [s[|s| - 1]] == s;
    }
  }

  function After(s: string): string { RightBlanks(TrimLeft(s)) }

  lemma TrimSplits(s: string)
    ensures s == LeftBlanks(s) + Trim(s) + After(s)
  {
    TrimLeftSplits(s);
    TrimRightSplits(TrimLeft(s));
    assert LeftBlanks(s) + (Trim(s) + After(s)) == LeftBlanks(s) + Trim(s) + After(s);
  }

  lemma {:induction false} TrimLeftOf(a: string, x: string)
    requires AllSpace(a) && x != "" && !IsSpace(x[0])
    ensures TrimLeft(a + x) == x
  {
    if a == "" {
      assert a + x == x;
    } else {
      TrimLeftOf(a[1..], x);
      assert (a + x)[1..] == a[1..] + x;
    }
  }

  lemma {:induction false} TrimRightOf(x: string, b: string)
    requires AllSpace(b) && x != "" && !IsSpace(x[|x| - 1])
    ensures TrimRight(x + b) == x
  {
    if b == "" {
      assert x + b == x;
    } else {
      TrimRightOf(x, b[..|b| - 1]);
      assert (x + b)[..|x + b| - 1] == x + b[..|b| - 1];
    }
  }

  lemma TrimOf(a: string, x: string, b: string)
    requires AllSpace(a) && AllSpace(b) && x != "" && Trimmed(x)
    ensures Trim(a + x + b) == x
  {
    assert a + x + b == a + (x + b);
    TrimLeftOf(a, x + b);
    TrimRightOf(x, b);
  }

  // ----- one line --------------------------------------------------------

  predicate RenamesKey(ln: string) { IsAssignment(ln) && Lookup(VAR_MIGRATIONS, Trim(KeyPart(ln))).Some? }

  predicate RewritesValue(ln: string) {
    && IsAssignment(ln) && IsProfileName(Trim(KeyPart(ln)))
    && Lookup(VALUE_MIGRATIONS, Trim(ValuePart(ln))).Some?
  }

  function LineChanges(ln: string): seq<Change> {
    (if RenamesKey(ln)
     then [Change(Trim(KeyPart(ln)), Lookup(VAR_MIGRATIONS, Trim(KeyPart(ln))).value)] else [])
    + (if RewritesValue(ln)
       then [Change(Trim(ValuePart(ln)), Lookup(VALUE_MIGRATIONS, Trim(ValuePart(ln))).value)] else [])
  }

  /** The line with the key renamed, as `replace` does it. */
  function WithKey(ln: string): string
    requires IsAssignment(ln)
  {
    if RenamesKey(ln) then
      var old_ := Trim(KeyPart(ln));
      VarCases(old_);
      ReplaceFirst(ln, KeyPart(ln), ReplaceAll(KeyPart(ln), old_, Lookup(VAR_MIGRATIONS, old_).value))
    else ln
  }

  /** `_migrate_env_line` */
  function MigratedLine(ln: string): string {
    if !IsAssignment(ln) then ln
    else if RewritesValue(ln) then
      var old_ := Trim(ValuePart(ln));
      ValueCases(old_);
      ReplaceFirst(WithKey(ln), ValuePart(ln), ReplaceAll(ValuePart(ln), old_, Lookup(VALUE_MIGRATIONS, old_).value))
    else WithKey(ln)
  }

  /** The new name of a variable. */
  function NewName(k: string): string {
    if Lookup(VAR_MIGRATIONS, k).Some? then Lookup(VAR_MIGRATIONS, k).value else k
  }

  /** The new value of a variable. */
  function NewValue(k: string, v: string): string {
    if IsProfileName(k) && Lookup(VALUE_MIGRATIONS, v).Some? then Lookup(VALUE_MIGRATIONS, v).value else v
  }

  predicate IsUpperName(s: string) {
    s != "" && forall i :: 0 <= i < |s| ==> 'A' <= s[i] <= 'Z' || s[i] == '_'
  }

  predicate IsLowerWord(s: string) {
    s != "" && forall i :: 0 <= i < |s| ==> 'a' <= s[i] <= 'z' || s[i] == '-'
  }

  lemma LookupFour(t: Table, k: string)
    requires |t| == 4
    ensures Lookup(t, k) == if t[0].0 == k then Some(t[0].1) else if t[1].0 == k then Some(t[1].1)
      else if t[2].0 == k then Some(t[2].1) else if t[3].0 == k then Some(t[3].1) else None
  {
    var t1, t2, t3 := t[1..], t[2..], t[3..];
    assert t1[1..] == t2 && t2[1..] == t3 && t3[1..] == [];
    assert Lookup(t3, k) == if t[3].0 == k then Some(t[3].1) else None;
    assert Lookup(t2, k) == if t[2].0 == k then Some(t[2].1) else Lookup(t3, k);
    assert Lookup(t1, k) == if t[1].0 == k then Some(t[1].1) else Lookup(t2, k);
  }

  /** The tables, entry by entry: what the rewriting rests on. */
  lemma VarCases(k: string)
    requires Lookup(VAR_MIGRATIONS, k).Some?
    ensures IsUpperName(k) && IsUpperName(Lookup(VAR_MIGRATIONS, k).value)
    ensures Lookup(VAR_MIGRATIONS, Lookup(VAR_MIGRATIONS, k).value).None?
  {
    LookupFour(VAR_MIGRATIONS, k);
    LookupFour(VAR_MIGRATIONS, Lookup(VAR_MIGRATIONS, k).value);
  }

  lemma ValueCases(v: string)
    requires Lookup(VALUE_MIGRATIONS, v).Some?
    ensures IsLowerWord(v) && IsLowerWord(Lookup(VALUE_MIGRATIONS, v).value)
    ensures Lookup(VALUE_MIGRATIONS, Lookup(VALUE_MIGRATIONS, v).value).None?
  {
    LookupFour(VALUE_MIGRATIONS, v);
    LookupFour(VALUE_MIGRATIONS, Lookup(VALUE_MIGRATIONS, v).value);
  }

  /** The key side of a migrated line: the same blanks, the new name. */
  function NewKeyPart(ln: string): string
    requires '=' in ln
  {
    LeftBlanks(KeyPart(ln)) + NewName(Trim(KeyPart(ln))) + After(KeyPart(ln))
  }

  function NewValuePart(ln: string): string
    requires '=' in ln
  {
    LeftBlanks(ValuePart(ln)) + NewValue(Trim(KeyPart(ln)), Trim(ValuePart(ln))) + After(ValuePart(ln))
  }

  lemma KeyIsRenamed(ln: string)
    requires IsAssignment(ln)
    ensures WithKey(ln) == NewKeyPart(ln) + "=" + ValuePart(ln)
  {
    var key, old_ := KeyPart(ln), Trim(KeyPart(ln));
    PartsOf(ln);
    TrimSplits(key);
    if RenamesKey(ln) {
      VarCases(old_);
      ReplaceAllBetweenBlanks(LeftBlanks(key), old_, After(key), NewName(old_));
      ReplaceHead(key, "=" + ValuePart(ln), NewKeyPart(ln));
      assert key + ("=" + ValuePart(ln)) == ln;
    }
  }

  lemma ReplaceHead(sub: string, post: string, rep: string)
    ensures ReplaceFirst(sub + post, sub, rep) == rep + post
  {}

  /** Where a profile value starts, no earlier text can match it: the key side
      holds no lower-case letter, and a value's blanks cannot span the '='. */
  lemma ValueNotInKey(key: string, a: string, word: string, b: string, i: nat)
    requires forall j :: 0 <= j < |key| ==> !('a' <= key[j] <= 'z') && key[j] != '-'
    requires AllSpace(a) && IsLowerWord(word) && i <= |key|
    ensures !(a + word + b <= (key + "=" + (a + word + b))[i..])
  {
    var val := a + word + b;
    var s := key + "=" + val;
    var p := if i + |a| <= |key| then |a| else |key| - i;
    assert val[|a|] == word[0];
    assert s[i..][p] == s[i + p];
    assert s[i + p] != val[p];
  }

  lemma ProfileKeyIsUpper(key: string)
    requires Trim(key) == "SECURITY_PROFILE"
    ensures forall j :: 0 <= j < |key| ==> !('a' <= key[j] <= 'z') && key[j] != '-'
  {
    TrimSplits(key);
    var a, b := LeftBlanks(key), After(key);
    forall j | 0 <= j < |key| ensures !('a' <= key[j] <= 'z') && key[j] != '-' {
      if j < |a| { assert key[j] == a[j]; }
      else if j < |a| + 16 { assert key[j] == "SECURITY_PROFILE"[j - |a|]; }
      else { assert key[j] == b[j - |a| - 16]; }
    }
  }

  /** A migrated line, side by side: each `replace` hits its own side only. */
  lemma MigratedSides(ln: string)
    requires IsAssignment(ln)
    ensures MigratedLine(ln) == NewKeyPart(ln) + "=" + NewValuePart(ln)
  {
    KeyIsRenamed(ln);
    var val := ValuePart(ln);
    TrimSplits(val);
    if RewritesValue(ln) {
      MigratedValueSide(ln);
    }
  }

  lemma NewKeyTrims(ln: string)
    requires IsAssignment(ln)
    ensures Trim(NewKeyPart(ln)) == NewName(Trim(KeyPart(ln)))
  {
    var key := KeyPart(ln);
    TrimSplits(key);
    if RenamesKey(ln) {
      VarCases(Trim(key));
      TrimOf(LeftBlanks(key), NewName(Trim(key)), After(key));
    }
  }

  lemma MigratedValueSide(ln: string)
    requires IsAssignment(ln) && RewritesValue(ln)
    ensures MigratedLine(ln) == NewKeyPart(ln) + "=" + NewValuePart(ln)
  {
    var val, old_ := ValuePart(ln), Trim(ValuePart(ln));
    var key := NewKeyPart(ln);
    KeyIsRenamed(ln);
    TrimSplits(val);
    ValueCases(old_);
    ReplaceAllBetweenBlanks(LeftBlanks(val), old_, After(val), NewValue(Trim(KeyPart(ln)), old_));
    NewKeyTrims(ln);
    LookupFour(VAR_MIGRATIONS, Trim(KeyPart(ln)));
    ProfileKeyIsUpper(key);
    ReplacesValue(key, LeftBlanks(val), old_, After(val), NewValuePart(ln));
  }

  /** After such a key the first match of the value side is the value side. */
  lemma ReplacesValue(key: string, a: string, word: string, b: string, new_: string)
    requires forall j :: 0 <= j < |key| ==> !('a' <= key[j] <= 'z') && key[j] != '-'
    requires AllSpace(a) && AllSpace(b) && IsLowerWord(word)
    ensures ReplaceFirst(key + "=" + (a + word + b), a + word + b, new_) == key + "=" + new_
  {
    var pre, val := key + "=", a + word + b;
    assert pre + val + "" == key + "=" + val && pre + new_ + "" == key + "=" + new_;
    forall i | 0 <= i < |pre| ensures !(val <= (pre + val + "")[i..]) { ValueNotInKey(key, a, word, b, i); }
    ReplaceFirstAt(pre, val, "", new_);
  }

  // ----- what a migrated line defines ------------------------------------

  lemma NoEqualsInBlanks(a: string)
    requires AllSpace(a)
    ensures '=' !in a && '#' !in a
  {}

  /** After blanks, the first character of a line is that of what follows. */
  lemma TrimFirst(a: string, x: string)
    requires AllSpace(a) && x != "" && !IsSpace(x[0])
    ensures Trim(a + x) != "" && Trim(a + x)[0] == x[0]
  {
    TrimLeftOf(a, x);
    TrimRightKeepsFirst(x);
  }

  /** The first visible character of a line: its name's, or '='. */
  lemma LineStarts(key: string, name: string, value: string)
    requires name == "" ==> Trim(key) == ""
    requires name != "" ==> !IsSpace(name[0])
    ensures var ln := LeftBlanks(key) + name + After(key) + "=" + value;
      Trim(ln) != "" && Trim(ln)[0] == if name != "" then name[0] else '='
  {
    var a := LeftBlanks(key);
    var x := name + After(key) + "=" + value;
    assert a + name + After(key) + "=" + value == a + x;
    if name == "" {
      TrimSplits(key);
      AllBlank(key);
      assert x == "=" + value;
    }
    TrimFirst(a, x);
  }

  lemma AllBlank(key: string)
    requires Trim(key) == ""
    ensures After(key) == ""
  {
    TrimLeftStart(key);
    if TrimLeft(key) != "" { TrimRightKeepsFirst(TrimLeft(key)); }
  }

  lemma NewNameFirst(ln: string)
    requires IsAssignment(ln)
    ensures var k := Trim(KeyPart(ln)); var n := NewName(k);
      (n == "" ==> k == "") && (n != "" ==> !IsSpace(n[0]) && n[0] != '#')
  {
    var key := KeyPart(ln);
    var k := Trim(key);
    TrimStart(key);
    TrimSplits(key);
    PartsOf(ln);
    LineStarts(key, k, ValuePart(ln));
    if RenamesKey(ln) { VarCases(k); }
  }

  lemma MigratedIsAssignment(ln: string)
    requires IsAssignment(ln)
    ensures IsAssignment(MigratedLine(ln))
    ensures KeyPart(MigratedLine(ln)) == NewKeyPart(ln) && ValuePart(MigratedLine(ln)) == NewValuePart(ln)
  {
    var key := KeyPart(ln);
    MigratedSides(ln);
    TrimSplits(key);
    NoEqualsInBlanks(LeftBlanks(key));
    NoEqualsInBlanks(After(key));
    if RenamesKey(ln) { VarCases(Trim(key)); }
    assert '=' !in NewKeyPart(ln);
    Parts(NewKeyPart(ln), NewValuePart(ln));
    NewNameFirst(ln);
    LineStarts(key, NewName(Trim(key)), NewValuePart(ln));
  }

  lemma NewValueTrims(ln: string)
    requires IsAssignment(ln)
    ensures Trim(NewValuePart(ln)) == NewValue(Trim(KeyPart(ln)), Trim(ValuePart(ln)))
  {
    var val := ValuePart(ln);
    TrimSplits(val);
    if RewritesValue(ln) {
      ValueCases(Trim(val));
      WordTrims(LeftBlanks(val), Lookup(VALUE_MIGRATIONS, Trim(val)).value, After(val));
    }
  }

  lemma WordTrims(a: string, x: string, b: string)
    requires AllSpace(a) && AllSpace(b) && IsLowerWord(x)
    ensures Trim(a + x + b) == x
  {
    TrimOf(a, x, b);
  }

  /** A migrated line defines the new name, with the new value. */
  lemma MigratedBinds(ln: string)
    ensures IsAssignment(MigratedLine(ln)) <==> IsAssignment(ln)
    ensures IsAssignment(ln) ==>
      LineKey(MigratedLine(ln)) == Some(NewName(LineKey(ln).value))
      && LineValue(MigratedLine(ln)) == NewValue(LineKey(ln).value, LineValue(ln))
  {
    if IsAssignment(ln) {
      MigratedIsAssignment(ln);
      NewKeyTrims(ln);
      NewValueTrims(ln);
    }
  }

  /** The tables spelled out: the new name of a variable. */
  lemma NewNames(k: string)
    ensures NewName(k) == if k == "VNC_REMOTE_PROFILE" then "SECURITY_PROFILE" else if k == "CERT_FILE" then "SSL_CERT"
      else if k == "KEY_FILE" then "SSL_KEY" else if k == "NOVNC_HOST" then "SERVE_NOVNC_HOST" else k
  {
    LookupFour(VAR_MIGRATIONS, k);
  }

  /** And its new value: only the security profile has aliases. */
  lemma NewValues(k: string, v: string)
    ensures NewValue(k, v) == if k != "SECURITY_PROFILE" && k != "VNC_REMOTE_PROFILE" then v
      else if v == "home-lan" then "trusted-lan" else if v == "private-vpn" then "private-overlay"
      else if v == "internet-hardened" then "public-hardened" else if v == "local-only" then "development" else v
  {
    LookupFour(VALUE_MIGRATIONS, v);
  }

  /** So a line of the file is migrated, and this is reported. */
  lemma LineMigrates(ln: string)
    requires IsAssignment(ln)
    ensures var k, v := LineKey(ln).value, LineValue(ln);
      && LineKey(MigratedLine(ln)) == Some(NewName(k)) && LineValue(MigratedLine(ln)) == NewValue(k, v)
      && LineChanges(ln) == (if NewName(k) != k then [Change(k, NewName(k))] else [])
                            + (if NewValue(k, v) != v then [Change(v, NewValue(k, v))] else [])
  {
    var k, v := LineKey(ln).value, LineValue(ln);
    MigratedBinds(ln);
    if Lookup(VAR_MIGRATIONS, k).Some? { VarCases(k); }
    if Lookup(VALUE_MIGRATIONS, v).Some? { ValueCases(v); }
  }

  lemma NewNameIsNew(k: string)
    ensures Lookup(VAR_MIGRATIONS, NewName(k)).None?
    ensures IsProfileName(NewName(k)) <==> IsProfileName(k)
  {
    if Lookup(VAR_MIGRATIONS, k).Some? { VarCases(k); }
    LookupFour(VAR_MIGRATIONS, k);
  }

  /** Nothing is left to migrate in a migrated line. */
  lemma MigratedHasNoChanges(ln: string)
    ensures LineChanges(MigratedLine(ln)) == []
  {
    MigratedBinds(ln);
    if IsAssignment(ln) {
      var k, v := LineKey(ln).value, LineValue(ln);
      NewNameIsNew(k);
      if IsProfileName(k) && Lookup(VALUE_MIGRATIONS, v).Some? { ValueCases(v); }
    }
  }

  /** A line changes exactly if a change is reported for it. */
  lemma UnchangedIffNoChange(ln: string)
    ensures MigratedLine(ln) == ln <==> LineChanges(ln) == []
  {
    if LineChanges(ln) != [] { MigratedHasNoChanges(ln); }
  }

  // ----- the file --------------------------------------------------------

  function MigrateAll(lines: seq<string>): (out: seq<string>)
    ensures |out| == |lines|
  {
    if lines == [] then [] else MigrateAll(lines[..|lines| - 1]) + [MigratedLine(lines[|lines| - 1])]
  }

  lemma {:induction false} MigrateAllAt(lines: seq<string>, i: nat)
    requires i < |lines|
    ensures MigrateAll(lines)[i] == MigratedLine(lines[i])
  {
    if i < |lines| - 1 { MigrateAllAt(lines[..|lines| - 1], i); }
  }

  function AllChanges(lines: seq<string>): seq<Change> {
    if lines == [] then [] else AllChanges(lines[..|lines| - 1]) + LineChanges(lines[|lines| - 1])
  }

  lemma {:induction false} MigrateAllAgain(lines: seq<string>)
    ensures AllChanges(MigrateAll(lines)) == []
  {
    if lines != [] {
      var n := |lines| - 1;
      MigrateAllAgain(lines[..n]);
      MigratedHasNoChanges(lines[n]);
      assert MigrateAll(lines)[..n] == MigrateAll(lines[..n]);
    }
  }

  lemma SnocEquals(a: seq<string>, x: string, b: seq<string>, y: string)
    requires |a| == |b|
    ensures a + [x] == b + [y] <==> a == b && x == y
  {
    if a + [x] == b + [y] {
      assert (a + [x])[..|a|] == a && (b + [y])[..|b|] == b;
      assert (a + [x])[|a|] == x && (b + [y])[|b|] == y;
    }
  }

  lemma {:induction false} UnchangedAll(lines: seq<string>)
    ensures AllChanges(lines) == [] <==> MigrateAll(lines) == lines
  {
    if lines != [] {
      var n := |lines| - 1;
      UnchangedAll(lines[..n]);
      UnchangedIffNoChange(lines[n]);
      LastUnchanged(lines[..n], MigrateAll(lines[..n]), AllChanges(lines[..n]), lines[n]);
      InitAndLast(lines);
    }
  }

  lemma LastUnchanged(lines: seq<string>, out: seq<string>, changes: seq<Change>, ln: string)
    requires |out| == |lines| && (changes == [] <==> out == lines)
    requires MigratedLine(ln) == ln <==> LineChanges(ln) == []
    ensures changes + LineChanges(ln) == [] <==> out + [MigratedLine(ln)] == lines + [ln]
  {
    SnocEquals(out, MigratedLine(ln), lines, ln);
    NoneOfTwo(changes, LineChanges(ln));
  }

  lemma NoneOfTwo(a: seq<Change>, b: seq<Change>)
    ensures a + b == [] <==> a == [] && b == []
  {}

  /** The name of the last line whose variable becomes `k`. */
  function LastDefiner(lines: seq<string>, k: string): Option<string> {
    if lines == [] then None
    else
      var ln := lines[|lines| - 1];
      if Becomes(ln, k) then LineKey(ln) else LastDefiner(lines[..|lines| - 1], k)
  }

  /** What two last-wins maps, of some lines and of their migrations, say of the
      variable `k`, when `definer` is the last name that becomes it. */
  ghost predicate Agree(definer: Option<string>, m: map<string, string>, m': map<string, string>, k: string) {
    match definer
    case None => k !in m' && forall d :: d in m ==> NewName(d) != k
    case Some(d) => d in m && NewName(d) == k && k in m' && m'[k] == NewValue(d, m[d])
  }

  lemma NewNameEmpty(k: string)
    ensures NewName(k) == "" <==> k == ""
  {
    if Lookup(VAR_MIGRATIONS, k).Some? { VarCases(k); }
  }

  predicate Becomes(ln: string, k: string) {
    LineKey(ln).Some? && LineKey(ln).value != "" && NewName(LineKey(ln).value) == k
  }

  lemma AgreeMore(definer: Option<string>, m: map<string, string>, m': map<string, string>, k: string, ln: string)
    requires Agree(definer, m, m', k)
    ensures Agree(if Becomes(ln, k) then LineKey(ln) else definer, Bind(m, ln), Bind(m', MigratedLine(ln)), k)
  {
    MigratedBinds(ln);
    if IsAssignment(ln) {
      var d, v := LineKey(ln).value, LineValue(ln);
      NewNameEmpty(d);
      AgreeBound(definer, m, m', k, d, v);
    }
  }

  lemma AgreeBound(definer: Option<string>, m: map<string, string>, m': map<string, string>, k: string, d: string, v: string)
    requires Agree(definer, m, m', k)
    ensures Agree(if NewName(d) == k then Some(d) else definer, m[d := v], m'[NewName(d) := NewValue(d, v)], k)
  {}

  /** The last-wins map of the migrated lines, variable by variable: the last
      line that comes to define it decides, by whichever name it did. */
  lemma {:induction false} MigratedParse(lines: seq<string>, k: string)
    ensures Agree(LastDefiner(lines, k), ParseLines(lines), ParseLines(MigrateAll(lines)), k)
  {
    if lines != [] {
      var n := |lines| - 1;
      MigratedParse(lines[..n], k);
      assert MigrateAll(lines)[..n] == MigrateAll(lines[..n]);
      AgreeMore(LastDefiner(lines[..n], k), ParseLines(lines[..n]), ParseLines(MigrateAll(lines[..n])), k, lines[n]);
    }
  }

  /** Variables defined together that become one also come to one value. */
  ghost predicate PairsAgree(m: map<string, string>) {
    forall d, e :: d in m && e in m && NewName(d) == NewName(e) ==> NewValue(d, m[d]) == NewValue(e, m[e])
  }

  /** Each variable is found under its new name, with its new value. */
  ghost predicate RenamedFaithfully(m: map<string, string>, m': map<string, string>) {
    forall d :: d in m ==> NewName(d) in m' && m'[NewName(d)] == NewValue(d, m[d])
  }

  /** Migrating and then parsing is parsing and then renaming, exactly if no two
      variables that become one were defined together with different values. */
  lemma MigrationCommutesWithParsing(lines: seq<string>)
    ensures var m, m' := ParseLines(lines), ParseLines(MigrateAll(lines));
      (RenamedFaithfully(m, m') <==> PairsAgree(m))
      && (forall k :: k in m' ==> exists d :: d in m && NewName(d) == k)
  {
    var m, m' := ParseLines(lines), ParseLines(MigrateAll(lines));
    forall k ensures Agree(LastDefiner(lines, k), m, m', k) { MigratedParse(lines, k); }
    if PairsAgree(m) {
      forall d | d in m ensures NewName(d) in m' && m'[NewName(d)] == NewValue(d, m[d]) {
        assert Agree(LastDefiner(lines, NewName(d)), m, m', NewName(d));
      }
    }
    forall k | k in m' ensures exists d :: d in m && NewName(d) == k {
      assert Agree(LastDefiner(lines, k), m, m', k);
    }
  }

  /** A file that defines a legacy name and, further down, its new name: the
      later line wins and the legacy variable's value is lost. */
  lemma PairConflict(old_: string, a: string, b: string)
    requires Lookup(VAR_MIGRATIONS, old_).Some? && Trimmed(a) && Trimmed(b)
    ensures var new_ := NewName(old_); var lines := [old_ + "=" + a, new_ + "=" + b];
      ParseLines(MigrateAll(lines)) == map[new_ := NewValue(new_, b)]
      && (PairsAgree(ParseLines(lines)) <==> NewValue(old_, a) == NewValue(new_, b))
  {
    var new_ := NewName(old_);
    var l1, l2 := old_ + "=" + a, new_ + "=" + b;
    VarCases(old_);
    UpperNameIsPlain(old_);
    UpperNameIsPlain(new_);
    WrittenLine(old_, a);
    WrittenLine(new_, b);
    TrimOfTrimmed(a);
    TrimOfTrimmed(b);
    TwoLines(l1, l2);
    PairMigrates(old_, new_, l1, l2, a, b);
    PairAgrees(old_, new_, a, b);
  }

  lemma UpperNameIsPlain(n: string)
    requires IsUpperName(n)
    ensures PlainName(n)
  {}

  lemma PairMigrates(old_: string, new_: string, l1: string, l2: string, a: string, b: string)
    requires NewName(old_) == new_ == NewName(new_) && old_ != "" && new_ != ""
    requires IsAssignment(l1) && LineKey(l1) == Some(old_) && LineValue(l1) == a
    requires IsAssignment(l2) && LineKey(l2) == Some(new_) && LineValue(l2) == b
    ensures ParseLines(MigrateAll([l1, l2])) == map[new_ := NewValue(new_, b)]
  {
    MigrateTwo(l1, l2);
    TwoLines(MigratedLine(l1), MigratedLine(l2));
    BindMigrated(map[], l1);
    BindMigrated(map[new_ := NewValue(old_, a)], l2);
  }

  lemma BindMigrated(m: map<string, string>, ln: string)
    requires IsAssignment(ln) && LineKey(ln).value != ""
    ensures Bind(m, MigratedLine(ln)) == m[NewName(LineKey(ln).value) := NewValue(LineKey(ln).value, LineValue(ln))]
  {
    MigratedBinds(ln);
    NewNameEmpty(LineKey(ln).value);
  }

  lemma MigrateTwo(l1: string, l2: string)
    ensures MigrateAll([l1, l2]) == [MigratedLine(l1), MigratedLine(l2)]
  {
    assert [l1, l2][..1] == [l1] && [l1][..0] == [];
    assert MigrateAll([l1]) == [MigratedLine(l1)];
  }

  lemma PairAgrees(old_: string, new_: string, a: string, b: string)
    requires NewName(old_) == new_ == NewName(new_) && old_ != new_
    ensures PairsAgree(map[old_ := a][new_ := b]) <==> NewValue(old_, a) == NewValue(new_, b)
  {}

  lemma TwoLines(l1: string, l2: string)
    ensures ParseLines([l1, l2]) == Bind(Bind(map[], l1), l2)
  {
    assert [l1, l2][..1] == [l1] && [l1][..0] == [];
    assert ParseLines([l1]) == Bind(map[], l1);
  }

  // ----- the text --------------------------------------------------------

  lemma MigratedOneLine(ln: string)
    requires OneLine(ln)
    ensures OneLine(MigratedLine(ln))
  {
    if IsAssignment(ln) {
      var key, val := KeyPart(ln), ValuePart(ln);
      MigratedSides(ln);
      PartsOf(ln);
      OneLineParts(key, val);
      WordsAreFine(ln);
      SidesOneLine(key, NewName(Trim(key)));
      SidesOneLine(val, NewValue(Trim(key), Trim(val)));
      OneLineSum(NewKeyPart(ln), NewValuePart(ln));
    }
  }

  lemma WordsAreFine(ln: string)
    requires IsAssignment(ln)
    ensures var k, v := Trim(KeyPart(ln)), Trim(ValuePart(ln));
      (NewName(k) == k || IsUpperName(NewName(k))) && (NewValue(k, v) == v || IsLowerWord(NewValue(k, v)))
  {
    var k, v := Trim(KeyPart(ln)), Trim(ValuePart(ln));
    if Lookup(VAR_MIGRATIONS, k).Some? { VarCases(k); }
    if Lookup(VALUE_MIGRATIONS, v).Some? { ValueCases(v); }
  }

  lemma SidesOneLine(side: string, word: string)
    requires OneLine(side)
    requires word == Trim(side) || IsUpperName(word) || IsLowerWord(word)
    ensures OneLine(LeftBlanks(side) + word + After(side))
  {
    TrimSplits(side);
    var a, t, b := LeftBlanks(side), Trim(side), After(side);
    assert forall i :: 0 <= i < |a| ==> side[i] == a[i];
    assert forall i :: 0 <= i < |t| ==> side[|a| + i] == t[i];
    assert forall i :: 0 <= i < |b| ==> side[|a| + |t| + i] == b[i];
  }

  lemma {:induction false} MigrateAllOneLine(lines: seq<string>)
    requires AllOneLine(lines)
    ensures AllOneLine(MigrateAll(lines))
  {
    if lines != [] {
      MigrateAllOneLine(lines[..|lines| - 1]);
      MigratedOneLine(lines[|lines| - 1]);
    }
  }

  /** The content of the file after a migration that is applied. */
  function MigratedText(text: string): string {
    if AllChanges(SplitLines(text)) == [] then text else JoinLines(MigrateAll(SplitLines(text)))
  }

  /** The lines of the migrated file are the migrated lines of the file. */
  lemma MigratedTextLines(text: string)
    ensures SplitLines(MigratedText(text)) == MigrateAll(SplitLines(text))
  {
    var lines := SplitLines(text);
    UnchangedAll(lines);
    if AllChanges(lines) != [] {
      SplitIsOneLine(text);
      MigrateAllOneLine(lines);
      SplitJoinLines(MigrateAll(lines));
    }
  }

  /** Migrating twice is migrating once, and the second run reports nothing. */
  lemma MigrationIsIdempotent(text: string)
    ensures AllChanges(SplitLines(MigratedText(text))) == []
    ensures MigratedText(MigratedText(text)) == MigratedText(text)
  {
    MigratedTextLines(text);
    MigrateAllAgain(SplitLines(text));
  }

  // ----- as the loader reads it ------------------------------------------

  /** What the loader makes of the file that was written: the variables of the
      migrated lines; of a file left alone, what it made of it before. */
  lemma LoaderReadsMigrated(text: string)
    ensures ParseEnv(MigratedText(text))
         == if AllChanges(SplitLines(text)) == [] then ParseEnv(text)
            else WithoutSubstitutions(ParseLines(MigrateAll(SplitLines(text))))
  {
    var lines := SplitLines(text);
    if AllChanges(lines) != [] {
      var out := MigrateAll(lines);
      SplitIsOneLine(text);
      MigrateAllOneLine(lines);
      JoinEmptyLast(out);
      NoNewlines(out);
      SplitJoin(out + [""], '\n');
      ParseEmptyLast(out);
    }
  }

  lemma NoNewlines(lines: seq<string>)
    requires AllOneLine(lines)
    ensures forall i :: 0 <= i < |lines + [""]| ==> '\n' !in (lines + [""])[i]
  {}

  /** The migration of a value adds no substitution and removes none. */
  lemma NewValueSubstitutes(k: string, v: string)
    ensures HasSubstitution(NewValue(k, v)) <==> HasSubstitution(v)
  {
    if IsProfileName(k) && Lookup(VALUE_MIGRATIONS, v).Some? {
      ValueCases(v);
      assert IsLowerWord(v) && IsLowerWord(NewValue(k, v));
    }
  }

  /** The line that comes to define the new name of `d` last gives it the value that
      is due to `d`, and one that the loader takes. */
  ghost predicate Settles(lines: seq<string>, d: string, v: string) {
    var e, m := LastDefiner(lines, NewName(d)), ParseLines(lines);
    e.Some? && e.value in m && !HasSubstitution(m[e.value]) && NewValue(e.value, m[e.value]) == NewValue(d, v)
  }

  lemma SettledIsFound(lines: seq<string>, d: string, v: string)
    ensures Settles(lines, d, v)
       <==> EnvLoad.Get(WithoutSubstitutions(ParseLines(MigrateAll(lines))), NewName(d)) == Some(NewValue(d, v))
            && !HasSubstitution(v)
  {
    var k, m, m' := NewName(d), ParseLines(lines), ParseLines(MigrateAll(lines));
    MigratedParse(lines, k);
    NewValueSubstitutes(d, v);
    var e := LastDefiner(lines, k);
    if e.Some? { NewValueSubstitutes(e.value, m[e.value]); }
  }

  /** A variable that the loader takes is the last to define its new name, or is
      outdone by one whose value the loader drops. */
  ghost predicate NoneOutdone(lines: seq<string>, l: map<string, string>) {
    forall d :: d in l ==>
      var e := LastDefiner(lines, NewName(d));
      e.Some? ==> e.value in l
  }

  /** Migrating a file is, for the loader, renaming what it reads, for every file
      that the migration changes: exactly if each of its variables is settled. And
      where lines end at line feeds only, that is if no two variables that become
      one were loaded together with different values, and none is outdone by one
      that the loader drops. */
  lemma MigrationCommutesWithLoading(text: string)
    ensures var lines, l, l' := SplitLines(text), ParseEnv(text), ParseEnv(MigratedText(text));
      && (AllChanges(lines) == [] ==> l' == l)
      && (AllChanges(lines) != [] || LineFeedsOnly(text) ==>
            (RenamedFaithfully(l, l') <==> forall d :: d in l ==> Settles(lines, d, l[d])))
      && (LineFeedsOnly(text) ==> (RenamedFaithfully(l, l') <==> PairsAgree(l) && NoneOutdone(lines, l)))
  {
    var lines, l, l' := SplitLines(text), ParseEnv(text), ParseEnv(MigratedText(text));
    LoaderReadsMigrated(text);
    UnchangedAll(lines);
    if LineFeedsOnly(text) { UniformText(text); }
    if AllChanges(lines) != [] || LineFeedsOnly(text) {
      assert l' == WithoutSubstitutions(ParseLines(MigrateAll(lines)));
      forall d | d in l
        ensures Settles(lines, d, l[d]) <==> NewName(d) in l' && l'[NewName(d)] == NewValue(d, l[d])
      {
        SettledIsFound(lines, d, l[d]);
      }
    }
    if LineFeedsOnly(text) { SettledAgree(lines, l); }
  }

  lemma SettledAgree(lines: seq<string>, l: map<string, string>)
    requires l == WithoutSubstitutions(ParseLines(lines))
    ensures (forall d :: d in l ==> Settles(lines, d, l[d])) <==> PairsAgree(l) && NoneOutdone(lines, l)
  {
    forall d | d in l
      ensures var e := LastDefiner(lines, NewName(d));
        e.Some? && e.value in ParseLines(lines) && NewName(e.value) == NewName(d)
    {
      MigratedParse(lines, NewName(d));
    }
    if forall d :: d in l ==> Settles(lines, d, l[d]) {
      forall d, e | d in l && e in l && NewName(d) == NewName(e) ensures NewValue(d, l[d]) == NewValue(e, l[e]) {
        assert Settles(lines, d, l[d]) && Settles(lines, e, l[e]);
      }
      forall d | d in l ensures LastDefiner(lines, NewName(d)).value in l { assert Settles(lines, d, l[d]); }
    }
    if PairsAgree(l) && NoneOutdone(lines, l) {
      forall d | d in l ensures Settles(lines, d, l[d]) {
        var e := LastDefiner(lines, NewName(d)).value;
        assert e in l && NewName(e) == NewName(d);
      }
    }
  }

  /** The two readings of a file can differ: a legacy name with a vertical tab
      before its '=' is one that the loader takes. The migration, which splits the
      line there, does not see it. */
  lemma SplitNameNotMigrated(old_: string, v: string)
    requires Lookup(VAR_MIGRATIONS, old_).Some? && OneLine(v) && Trimmed(v) && !HasSubstitution(v)
    ensures var text := old_ + "\U{0B}" + ("=" + v);
      ParseEnv(text) == map[old_ := v] && MigratedText(text) == text
  {
    var text := old_ + "\U{0B}" + ("=" + v);
    VarCases(old_);
    SplitNameLoads(old_, v);
    SplitNameLines(old_, v);
    NamelessUnchanged(v);
    TwoUnchanged(old_, "=" + v);
  }

  lemma TwoUnchanged(l1: string, l2: string)
    requires LineChanges(l2) == [] && '=' !in l1
    ensures AllChanges([l1, l2]) == []
  {
    assert LineChanges(l1) == [];
    assert [l1, l2][..1] == [l1] && [l1][..0] == [];
    assert AllChanges([l1]) == [];
  }

  lemma NamelessUnchanged(v: string)
    ensures LineChanges("=" + v) == []
  {
    Parts("", v);
    assert "" + "=" + v == "=" + v;
    if Lookup(VAR_MIGRATIONS, "").Some? { VarCases(""); }
  }

  lemma SplitNameLines(old_: string, v: string)
    requires IsUpperName(old_) && OneLine(v)
    ensures SplitLines(old_ + "\U{0B}" + ("=" + v)) == [old_, "=" + v]
  {
    var rest := "\U{0B}" + ("=" + v);
    assert old_ + "\U{0B}" + ("=" + v) == old_ + rest;
    BreaksWithPrefix(old_, rest);
    BreaksOfOneLine("=" + v);
    assert rest[1..] == "=" + v;
    assert old_ + "" == old_;
  }

  lemma SplitNameLoads(old_: string, v: string)
    requires IsUpperName(old_) && OneLine(v) && Trimmed(v) && !HasSubstitution(v)
    ensures ParseEnv(old_ + "\U{0B}" + ("=" + v)) == map[old_ := v]
  {
    Regroup(old_ + "\U{0B}", "=", v);
    BlankAfter(old_);
    KeyAssigns(old_ + "\U{0B}", old_, v);
    LoadsOne(old_ + "\U{0B}" + "=" + v, old_, v);
  }

  lemma BlankAfter(word: string)
    requires IsUpperName(word)
    ensures var key := word + "\U{0B}";
      Trim(key) == word && key != "" && !IsSpace(key[0]) && key[0] != '#' && '=' !in key && '\n' !in key
  {
    assert "" + word + "\U{0B}" == word + "\U{0B}";
    TrimOf("", word, "\U{0B}");
  }

  lemma KeyAssigns(key: string, name: string, v: string)
    requires key != "" && !IsSpace(key[0]) && key[0] != '#' && '=' !in key && Trim(key) == name && Trimmed(v)
    ensures var ln := key + "=" + v;
      IsAssignment(ln) && LineKey(ln) == Some(name) && LineValue(ln) == v
  {
    Parts(key, v);
    TrimOfTrimmed(v);
    TrimRightKeepsFirst(key + "=" + v);
  }

  lemma LoadsOne(ln: string, k: string, v: string)
    requires '\n' !in ln && IsAssignment(ln) && LineKey(ln) == Some(k) && LineValue(ln) == v
    requires k != "" && !HasSubstitution(v)
    ensures ParseEnv(ln) == map[k := v]
  {
    SplitWhole(ln, '\n');
    assert [ln][..0] == [];
    assert ParseLines([ln]) == map[k := v];
  }

  // ----- the migration ---------------------------------------------------

  method FindMigration(table: Table, old_: string) returns (new_: Option<string>)
    ensures new_ == Lookup(table, old_)
  {
    var i := 0;
    assert table[0..] == table;
    while i < |table|
      invariant 0 <= i <= |table| && Lookup(table, old_) == Lookup(table[i..], old_)
    {
      if table[i].0 == old_ { return Some(table[i].1); }
      assert table[i..][1..] == table[i + 1..];
      i := i + 1;
    }
    return None;
  }

  /** `_migrate_env_line`: the line, and the changes found in it. */
  method MigrateEnvLine(ln: string, dryRun: bool) returns (out: string, changes: seq<Change>)
    ensures out == LineOut(ln, dryRun)
    ensures changes == LineChanges(ln)
  {
    out, changes := ln, [];
    if !IsAssignment(ln) { return; }
    var key, val := KeyPart(ln), ValuePart(ln);
    var keyS, valS := Trim(key), Trim(val);
    var newKey := FindMigration(VAR_MIGRATIONS, keyS);
    if newKey.Some? {
      changes := changes + [Change(keyS, newKey.value)];
      if !dryRun {
        VarCases(keyS);
        out := ReplaceFirst(out, key, ReplaceAll(key, keyS, newKey.value));
      }
    }
    if IsProfileName(keyS) {
      var newVal := FindMigration(VALUE_MIGRATIONS, valS);
      if newVal.Some? {
        changes := changes + [Change(valS, newVal.value)];
        if !dryRun {
          ValueCases(valS);
          out := ReplaceFirst(out, val, ReplaceAll(val, valS, newVal.value));
        }
      }
    }
  }

  /** The lines as they are, or migrated. */
  function LinesOut(lines: seq<string>, dryRun: bool): seq<string> { if dryRun then lines else MigrateAll(lines) }

  function LineOut(ln: string, dryRun: bool): string { if dryRun then ln else MigratedLine(ln) }

  lemma AllMore(lines: seq<string>, i: nat, dryRun: bool)
    requires i < |lines|
    ensures LinesOut(lines[..i + 1], dryRun) == LinesOut(lines[..i], dryRun) + [LineOut(lines[i], dryRun)]
    ensures AllChanges(lines[..i + 1]) == AllChanges(lines[..i]) + LineChanges(lines[i])
  {
    assert lines[..i + 1][..i] == lines[..i];
  }

  /** The loop of `migrate_env` over the lines. */
  method MigrateLines(lines: seq<string>, dryRun: bool) returns (outLines: seq<string>, changes: seq<Change>)
    ensures changes == AllChanges(lines)
    ensures outLines == LinesOut(lines, dryRun)
  {
    outLines, changes := [], [];
    for i := 0 to |lines|
      invariant changes == AllChanges(lines[..i])
      invariant outLines == LinesOut(lines[..i], dryRun)
    {
      var ln, found := MigrateEnvLine(lines[i], dryRun);
      AllMore(lines, i, dryRun);
      outLines := outLines + [ln];
      changes := changes + found;
    }
    assert lines[..|lines|] == lines;
  }

  /** `migrate_env`, on the content of a file that exists. */
  method MigrateEnv(text: string, dryRun: bool) returns (changes: seq<Change>, applied: bool, content: string)
    ensures changes == AllChanges(SplitLines(text))
    ensures applied <==> changes != [] && !dryRun
    ensures content == if dryRun then text else MigratedText(text)
  {
    var outLines;
    outLines, changes := MigrateLines(SplitLines(text), dryRun);
    applied := changes != [] && !dryRun;
    content := if applied then JoinLines(outLines) else text;
  }
}
