/** Restoring a backup archive: which members are let through, where they and
    their links lead, and how much they may hold. */
module BackupRestore {
  import opened Text
  import opened Bytes

  const MAX_MEMBERS: nat := 10000
  const MAX_FILE_SIZE: nat := 512 * 1024 * 1024
  const MAX_TOTAL_SIZE: nat := 2 * 1024 * 1024 * 1024

  // ----- POSIX paths -----------------------------------------------------

  type Path = seq<string>

  predicate IsAbs(p: string) { p != "" && p[0] == '/' }

  /** One component of a path, on the stack of those before it. */
  function Push(stack: Path, comp: string, rooted: bool): Path {
    if comp == "" || comp == "." then stack
    else if comp != ".." || (!rooted && stack == []) || (stack != [] && stack[|stack| - 1] == "..") then stack + [comp]
    else if stack != [] then stack[..|stack| - 1]
    else stack
  }

  function Fold(stack: Path, comps: seq<string>, rooted: bool): Path
    decreases |comps|
  {
    if comps == [] then stack else Fold(Push(stack, comps[0], rooted), comps[1..], rooted)
  }

  function Slashes(p: string): string {
    if !IsAbs(p) then ""
    else if |p| >= 2 && p[1] == '/' && !(|p| >= 3 && p[2] == '/') then "//"
    else "/"
  }

  /** The components `normpath` keeps. */
  function Kept(p: string): Path { Fold([], Split(p, '/'), IsAbs(p)) }

  /** `os.path.normpath` */
  function NormPath(p: string): string {
    var r := Slashes(p) + Join(Kept(p), '/');
    if r == "" then "." else r
  }

  /** `os.path.join(a, b)` */
  function JoinPath(a: string, b: string): string {
    if IsAbs(b) then b
    else if a == "" || a[|a| - 1] == '/' then a + b
    else a + "/" + b
  }

  function TrimSlashes(p: string): string {
    if p != "" && p[|p| - 1] == '/' then TrimSlashes(p[..|p| - 1]) else p
  }

  /** The part of a path up to and with its last slash. */
  function Head(p: string): string {
    if p == "" || p[|p| - 1] == '/' then p else Head(p[..|p| - 1])
  }

  /** `os.path.dirname` */
  function DirName(p: string): string {
    var h := Head(p);
    if TrimSlashes(h) == "" then h else TrimSlashes(h)
  }

  predicate StartsWithDots(s: string) { ".." <= s }

  /** A component that names an entry of its directory. */
  predicate Plain(c: string) { c != "" && c != "." && c != ".." && '/' !in c }

  predicate AllPlain(p: Path) { forall i :: 0 <= i < |p| ==> Plain(p[i]) }

  // ----- where paths lead ------------------------------------------------

  /** From a directory into one component: `..` is the parent, and the root's is
      the root. */
  function Enter(dir: Path, comp: string): Path {
    if comp == "" || comp == "." then dir
    else if comp == ".." then (if dir == [] then [] else dir[..|dir| - 1])
    else dir + [comp]
  }

  function Walk(dir: Path, comps: seq<string>): Path
    decreases |comps|
  {
    if comps == [] then dir else Walk(Enter(dir, comps[0]), comps[1..])
  }

  /** The lexical meaning of a path: where it leads from a directory, the
      components being followed one by one. */
  function Resolve(dir: Path, p: string): Path { Walk(if IsAbs(p) then [] else dir, Split(p, '/')) }

  // ----- the shape of a normalised path ----------------------------------

  /** `..` is found only as a leading run. */
  ghost predicate DotsLead(p: Path) {
    && (forall i :: 0 <= i < |p| ==> p[i] == ".." || Plain(p[i]))
    && (forall i, j :: 0 <= i < j < |p| && p[j] == ".." ==> p[i] == "..")
  }

  lemma PushKeepsShape(stack: Path, comp: string, rooted: bool)
    requires DotsLead(stack) && '/' !in comp
    ensures DotsLead(Push(stack, comp, rooted))
    ensures rooted && AllPlain(stack) ==> AllPlain(Push(stack, comp, rooted))
  {}

  lemma {:induction false} FoldKeepsShape(stack: Path, comps: seq<string>, rooted: bool)
    requires DotsLead(stack) && (rooted ==> AllPlain(stack))
    requires forall i :: 0 <= i < |comps| ==> '/' !in comps[i]
    ensures DotsLead(Fold(stack, comps, rooted))
    ensures rooted ==> AllPlain(Fold(stack, comps, rooted))
    decreases |comps|
  {
    if comps != [] {
      PushKeepsShape(stack, comps[0], rooted);
      FoldKeepsShape(Push(stack, comps[0], rooted), comps[1..], rooted);
    }
  }

  /** In a normalised path `..` survives only as a leading run, and only if the
      path is relative. */
  lemma NormalisedShape(p: string)
    ensures DotsLead(Kept(p))
    ensures IsAbs(p) ==> AllPlain(Kept(p))
  {
    FoldKeepsShape([], Split(p, '/'), IsAbs(p));
  }

  lemma {:induction false} FoldSum(stack: Path, a: seq<string>, b: seq<string>, rooted: bool)
    ensures Fold(stack, a + b, rooted) == Fold(Fold(stack, a, rooted), b, rooted)
    decreases |a|
  {
    if a == [] {
      assert a + b == b;
    } else {
      FoldSum(Push(stack, a[0], rooted), a[1..], b, rooted);
      assert (a + b)[1..] == a[1..] + b;
    }
  }

  lemma {:induction false} FoldPlain(stack: Path, comps: seq<string>, rooted: bool)
    requires AllPlain(comps)
    ensures Fold(stack, comps, rooted) == stack + comps
    decreases |comps|
  {
    if comps != [] {
      FoldPlain(stack + [comps[0]], comps[1..], rooted);
      assert stack + [comps[0]] + comps[1..] == stack + comps;
    }
  }

  /** A leading `..` is never undone. */
  lemma {:induction false} DotsStay(stack: Path, comps: seq<string>)
    requires stack != [] && stack[0] == ".."
    ensures Fold(stack, comps, false) != [] && Fold(stack, comps, false)[0] == ".."
    decreases |comps|
  {
    if comps != [] { DotsStay(Push(stack, comps[0], false), comps[1..]); }
  }

  // ----- normalising keeps the meaning -----------------------------------

  lemma {:induction false} WalkSum(dir: Path, a: seq<string>, b: seq<string>)
    ensures Walk(dir, a + b) == Walk(Walk(dir, a), b)
    decreases |a|
  {
    if a == [] {
      assert a + b == b;
    } else {
      WalkSum(Enter(dir, a[0]), a[1..], b);
      assert (a + b)[1..] == a[1..] + b;
    }
  }

  lemma WalkLast(dir: Path, comps: seq<string>, c: string)
    ensures Walk(dir, comps + [c]) == Enter(Walk(dir, comps), c)
  {
    WalkSum(dir, comps, [c]);
    assert [c][1..] == [];
  }

  /** From the root the stack is where the path has led. */
  lemma {:induction false} FoldIsWalk(stack: Path, comps: seq<string>)
    requires AllPlain(stack) && forall i :: 0 <= i < |comps| ==> '/' !in comps[i]
    ensures Fold(stack, comps, true) == Walk(stack, comps)
    decreases |comps|
  {
    if comps != [] {
      assert Push(stack, comps[0], true) == Enter(stack, comps[0]);
      FoldIsWalk(Push(stack, comps[0], true), comps[1..]);
    }
  }

  /** One component more on the stack is one component further on the way. */
  lemma PushWalks(dir: Path, stack: Path, c: string)
    requires DotsLead(stack) && '/' !in c
    ensures Walk(dir, Push(stack, c, false)) == Enter(Walk(dir, stack), c)
  {
    if c == ".." && stack != [] && stack[|stack| - 1] != ".." {
      var n := |stack| - 1;
      WalkLast(dir, stack[..n], stack[n]);
      assert stack[..n] + [stack[n]] == stack;
    } else if c != "" && c != "." {
      WalkLast(dir, stack, c);
    }
  }

  lemma {:induction false} FoldWalks(dir: Path, stack: Path, comps: seq<string>)
    requires DotsLead(stack) && forall i :: 0 <= i < |comps| ==> '/' !in comps[i]
    ensures Walk(dir, Fold(stack, comps, false)) == Walk(Walk(dir, stack), comps)
    decreases |comps|
  {
    if comps != [] {
      PushKeepsShape(stack, comps[0], false);
      PushWalks(dir, stack, comps[0]);
      FoldWalks(dir, Push(stack, comps[0], false), comps[1..]);
    }
  }

  lemma {:induction false} WalkPlain(dir: Path, comps: seq<string>)
    requires AllPlain(comps)
    ensures Walk(dir, comps) == dir + comps
    decreases |comps|
  {
    if comps != [] {
      WalkPlain(dir + [comps[0]], comps[1..]);
      assert dir + [comps[0]] + comps[1..] == dir + comps;
    }
  }

  /** A relative path that normalises without `..` leads, from any directory, to
      just what it normalises to: on its way it never climbs above the start. */
  lemma FoldShifts(root: Path, stack: Path, comps: seq<string>)
    requires AllPlain(stack) && AllPlain(root) && AllPlain(Fold(stack, comps, false))
    requires forall i :: 0 <= i < |comps| ==> '/' !in comps[i]
    ensures Walk(root + stack, comps) == root + Fold(stack, comps, false)
  {
    FoldKeepsShape(stack, comps, false);
    FoldWalks(root, stack, comps);
    WalkPlain(root, stack);
    WalkPlain(root, Fold(stack, comps, false));
  }

  // ----- printed paths ---------------------------------------------------

  lemma SplitKept(comps: Path)
    requires comps != [] && AllPlain(comps)
    ensures Split(Join(comps, '/'), '/') == comps && !IsAbs(Join(comps, '/'))
  {
    SplitJoin(comps, '/');
    JoinStarts(comps);
  }

  lemma JoinStarts(comps: Path)
    requires comps != [] && comps[0] != ""
    ensures Join(comps, '/') != "" && Join(comps, '/')[0] == comps[0][0]
    ensures |comps[0]| >= 2 ==> |Join(comps, '/')| >= 2 && Join(comps, '/')[1] == comps[0][1]
    ensures |comps[0]| == 1 && |Join(comps, '/')| >= 2 ==> Join(comps, '/')[1] == '/'
  {}

  /** The printed path starts with two dots exactly if its first component does. */
  lemma DotsShow(comps: Path)
    requires DotsLead(comps)
    ensures StartsWithDots(if comps == [] then "." else Join(comps, '/'))
       <==> comps != [] && StartsWithDots(comps[0])
  {
    if comps != [] { JoinStarts(comps); }
  }

  lemma NoDotsIsPlain(comps: Path)
    requires DotsLead(comps) && (comps != [] ==> !StartsWithDots(comps[0]))
    ensures AllPlain(comps)
  {}

  // ----- the checks ------------------------------------------------------

  datatype Kind = File | Symlink | Hardlink

  datatype Member = Member(name: string, kind: Kind, linkname: string, size: nat)

  /** The directory the archive is extracted to, as `realpath` prints it. */
  function RootText(root: Path): string { "/" + Join(root, '/') }

  predicate IsRoot(root: Path) { root != [] && AllPlain(root) }

  /** The name checks of `_validate_tar_member`, on the normalised name. The
      extraction directory holds no symbolic link of its own, so that `realpath`
      is lexical. */
  predicate NameAccepted(root: Path, memberPath: string) {
    && !StartsWithDots(memberPath) && !IsAbs(memberPath)
    && RootText(root) + "/" <= NormPath(JoinPath(RootText(root), memberPath))
  }

  /** The target that the link checks look at. */
  function LinkTarget(memberPath: string, m: Member): string {
    NormPath(JoinPath(if m.kind.Symlink? then DirName(memberPath) else "", m.linkname))
  }

  predicate LinkAccepted(memberPath: string, m: Member) {
    m.kind.File?
    || (!IsAbs(m.linkname) && !StartsWithDots(LinkTarget(memberPath, m)) && !IsAbs(LinkTarget(memberPath, m)))
  }

  /** `_validate_tar_member` */
  predicate Accepted(root: Path, m: Member) {
    var memberPath := NormPath(m.name);
    NameAccepted(root, memberPath) && LinkAccepted(memberPath, m) && m.size <= MAX_FILE_SIZE
  }

  /** The normalised text of a relative name. */
  lemma RelativeText(name: string)
    requires !IsAbs(name)
    ensures NormPath(name) == if Kept(name) == [] then "." else Join(Kept(name), '/')
  {
    NormalisedShape(name);
    if Kept(name) != [] { JoinStarts(Kept(name)); }
  }

  lemma AbsoluteStaysAbsolute(name: string)
    requires IsAbs(name)
    ensures IsAbs(NormPath(name))
  {}

  lemma KeptOfTarget(root: Path, comps: Path)
    requires IsRoot(root) && comps != [] && AllPlain(comps)
    ensures Kept(RootText(root) + "/" + Join(comps, '/')) == root + comps
  {
    var text := Join(comps, '/');
    SplitKept(comps);
    SplitKept(root);
    SplitOfSum("", Join(root, '/'), '/');
    assert "" + "/" + Join(root, '/') == RootText(root);
    SplitOfSum(RootText(root), text, '/');
    FoldSum([], [""] + root, comps, true);
    FoldSum([], [""], root, true);
    FoldPlain([], root, true);
    FoldPlain([] + root, comps, true);
    assert [] + root == root;
  }

  /** Where the extraction directory and a normalised name lead together. */
  lemma TargetText(root: Path, comps: Path)
    requires IsRoot(root) && comps != [] && AllPlain(comps)
    ensures NormPath(JoinPath(RootText(root), Join(comps, '/'))) == RootText(root) + "/" + Join(comps, '/')
  {
    KeptOfTarget(root, comps);
    JoinSum(root, comps);
    OneSlash(root, "/" + Join(comps, '/'));
    JoinStarts(comps);
    RootEnds(root);
    SumOfThree("/", Join(root, '/'), "/", Join(comps, '/'));
    Regroup(RootText(root), "/", Join(comps, '/'));
  }

  /** A normalised path leads where the path does, from every directory. */
  lemma NormalisationKeepsMeaning(dir: Path, p: string)
    ensures IsAbs(NormPath(p)) == IsAbs(p)
    ensures Resolve(dir, NormPath(p)) == Resolve(dir, p)
  {
    if IsAbs(p) { AbsoluteMeans(dir, p); } else { RelativeMeans(dir, p); }
  }

  lemma RelativeMeans(dir: Path, p: string)
    requires !IsAbs(p)
    ensures !IsAbs(NormPath(p)) && Resolve(dir, NormPath(p)) == Resolve(dir, p)
  {
    NormalisedShape(p);
    SplitPieces(p);
    RelativeText(p);
    FoldWalks(dir, [], Split(p, '/'));
    KeptLeads(dir, Kept(p));
  }

  lemma KeptLeads(dir: Path, comps: Path)
    requires DotsLead(comps)
    ensures var text := if comps == [] then "." else Join(comps, '/');
      !IsAbs(text) && Walk(dir, Split(text, '/')) == Walk(dir, comps)
  {
    if comps == [] {
      SplitWhole(".", '/');
      WalkLast(dir, [], ".");
      assert [] + ["."] == ["."];
    } else {
      SplitJoin(comps, '/');
      JoinStarts(comps);
    }
  }

  lemma AbsoluteMeans(dir: Path, p: string)
    requires IsAbs(p)
    ensures IsAbs(NormPath(p)) && Resolve(dir, NormPath(p)) == Resolve(dir, p)
  {
    var text := Join(Kept(p), '/');
    KeptIsWalk(p);
    TextLeads(Kept(p));
    AbsoluteText(p);
    SlashLeads(text);
    SlashLeads("/" + text);
  }

  /** POSIX gives a path that starts with exactly two slashes a meaning of its own:
      both stay. Otherwise an absolute path keeps one. */
  lemma LeadingSlashes(p: string)
    requires IsAbs(p)
    ensures NormPath(p) == if |p| >= 2 && p[..2] == "//" && (|p| == 2 || p[2] != '/')
                           then "//" + Join(Kept(p), '/') else "/" + Join(Kept(p), '/')
  {}

  lemma AbsoluteText(p: string)
    requires IsAbs(p)
    ensures var text := Join(Kept(p), '/');
      IsAbs(NormPath(p)) && (NormPath(p) == "/" + text || NormPath(p) == "/" + ("/" + text))
  {
    var text := Join(Kept(p), '/');
    assert "//" + text == "/" + ("/" + text);
  }

  lemma KeptIsWalk(p: string)
    requires IsAbs(p)
    ensures AllPlain(Kept(p)) && Kept(p) == Walk([], Split(p, '/'))
  {
    NormalisedShape(p);
    SplitPieces(p);
    FoldIsWalk([], Split(p, '/'));
  }

  lemma SlashLeads(text: string)
    ensures Walk([], Split("/" + text, '/')) == Walk([], Split(text, '/'))
  {
    SplitOfSum("", text, '/');
    assert "" + "/" + text == "/" + text;
    WalkSum([], [""], Split(text, '/'));
    WalkLast([], [], "");
    assert [] + [""] == [""] == Split("", '/');
  }

  lemma TextLeads(comps: Path)
    requires AllPlain(comps)
    ensures Walk([], Split(Join(comps, '/'), '/')) == comps
  {
    WalkPlain([], comps);
    assert [] + comps == comps;
    if comps == [] {
      WalkLast([], [], "");
      assert [] + [""] == [""];
    } else {
      SplitJoin(comps, '/');
    }
  }

  /** A joined path leads where its second part does, from where the first does. */
  lemma JoinMeans(dir: Path, a: string, b: string)
    ensures Resolve(dir, JoinPath(a, b)) == Resolve(Resolve(dir, a), b)
  {
    var from := if IsAbs(a) then [] else dir;
    assert Split("", '/') == [""] && Walk(dir, [""]) == dir by { WalkLast(dir, [], ""); assert [] + [""] == [""]; }
    if !IsAbs(b) && a == "" {
      assert a + b == b;
    } else if !IsAbs(b) && a[|a| - 1] == '/' {
      var init := a[..|a| - 1];
      SplitOfSum(init, b, '/');
      SplitOfSum(init, "", '/');
      assert init + "/" + b == a + b && init + "/" + "" == a;
      WalkSum(from, Split(init, '/'), Split(b, '/'));
      WalkLast(from, Split(init, '/'), "");
    } else if !IsAbs(b) {
      SplitOfSum(a, b, '/');
      WalkSum(from, Split(a, '/'), Split(b, '/'));
    }
  }

  /** Below the root a path starts with a single slash. */
  lemma OneSlash(root: Path, rest: string)
    requires IsRoot(root)
    ensures IsAbs(RootText(root) + rest) && Slashes(RootText(root) + rest) == "/"
  {}

  lemma SumOfThree(a: string, b: string, c: string, d: string)
    ensures a + (b + c + d) == a + b + c + d
  {}

  lemma {:induction false} JoinSum(a: Path, b: Path)
    requires a != [] && b != []
    ensures Join(a + b, '/') == Join(a, '/') + "/" + Join(b, '/')
  {
    if |a| == 1 {
      assert (a + b)[1..] == b;
    } else {
      JoinSum(a[1..], b);
      assert (a + b)[1..] == a[1..] + b;
      assert a[0] + ['/'] + (Join(a[1..], '/') + "/" + Join(b, '/'))
          == a[0] + ['/'] + Join(a[1..], '/') + "/" + Join(b, '/');
    }
  }

  lemma {:induction false} JoinEnds(comps: Path)
    requires comps != [] && AllPlain(comps)
    ensures Join(comps, '/') != "" && Join(comps, '/')[|Join(comps, '/')| - 1] != '/'
  {
    if |comps| > 1 { JoinEnds(comps[1..]); }
  }

  lemma RootEnds(root: Path)
    requires IsRoot(root)
    ensures RootText(root)[|RootText(root)| - 1] != '/'
  {
    JoinEnds(root);
  }

  /** The root itself does not pass the prefix check. */
  lemma RootNotBelow(root: Path)
    requires IsRoot(root)
    ensures !(RootText(root) + "/" <= NormPath(JoinPath(RootText(root), ".")))
  {
    RootEnds(root);
    KeptOfRootDot(root);
    JoinStarts(root);
    var whole := RootText(root) + "/" + ".";
    assert whole[1] == Join(root, '/')[0];
    assert NormPath(whole) == RootText(root);
  }

  lemma KeptOfRootDot(root: Path)
    requires IsRoot(root)
    ensures Kept(RootText(root) + "/" + ".") == root
  {
    SplitKept(root);
    SplitOfSum("", Join(root, '/'), '/');
    assert "" + "/" + Join(root, '/') == RootText(root);
    SplitOfSum(RootText(root), ".", '/');
    SplitWhole(".", '/');
    FoldSum([], [""] + root, ["."], true);
    FoldSum([], [""], root, true);
    FoldPlain([], root, true);
    assert [] + root == root;
  }

  /** Exactly these names pass: relative, not the root, and normalising to a
      first component that does not start with two dots. */
  lemma NameAcceptedExactly(root: Path, name: string)
    requires IsRoot(root)
    ensures NameAccepted(root, NormPath(name))
       <==> !IsAbs(name) && Kept(name) != [] && !StartsWithDots(Kept(name)[0])
  {
    if IsAbs(name) {
      AbsoluteStaysAbsolute(name);
    } else {
      NormalisedShape(name);
      RelativeText(name);
      DotsShow(Kept(name));
      if Kept(name) == [] {
        RootNotBelow(root);
      } else if !StartsWithDots(Kept(name)[0]) {
        NoDotsIsPlain(Kept(name));
        TargetText(root, Kept(name));
        SplitKept(Kept(name));
      }
    }
  }

  lemma SplitPieces(p: string)
    ensures forall i :: 0 <= i < |Split(p, '/')| ==> '/' !in Split(p, '/')[i]
  {}

  /** A path that normalises without `..` has no prefix that does. */
  lemma PrefixPlain(stack: Path, comps: seq<string>, n: nat)
    requires AllPlain(stack) && AllPlain(Fold(stack, comps, false)) && n <= |comps|
    requires forall i :: 0 <= i < |comps| ==> '/' !in comps[i]
    ensures AllPlain(Fold(stack, comps[..n], false))
  {
    var mid := Fold(stack, comps[..n], false);
    FoldKeepsShape(stack, comps[..n], false);
    FoldSum(stack, comps[..n], comps[n..], false);
    assert comps[..n] + comps[n..] == comps;
    if mid != [] && mid[0] == ".." { DotsStay(mid, comps[n..]); }
  }

  /** Followed from the directory `root + stack`, the first `n` components of such
      a path lead to a place at or below the root. */
  lemma PrefixStays(root: Path, stack: Path, comps: seq<string>, n: nat)
    requires AllPlain(root) && AllPlain(stack) && AllPlain(Fold(stack, comps, false)) && n <= |comps|
    requires forall i :: 0 <= i < |comps| ==> '/' !in comps[i]
    ensures root <= Walk(root + stack, comps[..n])
  {
    PrefixPlain(stack, comps, n);
    FoldShifts(root, stack, comps[..n]);
    assert (root + Fold(stack, comps[..n], false))[..|root|] == root;
  }

  /** Every accepted member leads strictly below the extraction directory, and
      its path, followed component by component, never leaves it. */
  lemma AcceptedStaysBelow(root: Path, m: Member, n: nat)
    requires IsRoot(root) && Accepted(root, m)
    ensures root < Resolve(root, m.name) && AllPlain(Resolve(root, m.name))
    ensures Resolve(root, m.name) == root + Kept(m.name)
    ensures n <= |Split(m.name, '/')| ==> root <= Walk(root, Split(m.name, '/')[..n])
  {
    AcceptedLeadsBelow(root, m);
    if n <= |Split(m.name, '/')| {
      SplitPieces(m.name);
      assert root + [] == root;
      PrefixStays(root, [], Split(m.name, '/'), n);
    }
  }

  lemma AcceptedLeadsBelow(root: Path, m: Member)
    requires IsRoot(root) && Accepted(root, m)
    ensures AllPlain(Kept(m.name)) && !IsAbs(m.name)
    ensures root < Resolve(root, m.name) && AllPlain(Resolve(root, m.name))
    ensures Resolve(root, m.name) == root + Kept(m.name)
  {
    NameAcceptedExactly(root, m.name);
    NormalisedShape(m.name);
    NoDotsIsPlain(Kept(m.name));
    SplitPieces(m.name);
    FoldShifts(root, [], Split(m.name, '/'));
    assert root + [] == root;
    assert (root + Kept(m.name))[..|root|] == root;
  }

  /** Some harmless names are refused: a first component may not even start
      with two dots. */
  lemma DottedNameRefused(root: Path)
    requires IsRoot(root)
    ensures root < Resolve(root, "..data") && !NameAccepted(root, NormPath("..data"))
  {
    var name := "..data";
    SplitWhole(name, '/');
    assert Kept(name) == [name];
    NameAcceptedExactly(root, name);
    assert Resolve(root, name) == root + [name];
    assert (root + [name])[..|root|] == root;
  }

  // ----- links -----------------------------------------------------------

  lemma {:induction false} HeadOfSum(a: string, b: string)
    requires '/' !in b
    ensures Head(a + "/" + b) == a + "/"
  {
    var s := a + "/" + b;
    if b == "" {
      assert s == a + "/";
    } else {
      assert s[..|s| - 1] == a + "/" + b[..|b| - 1];
      HeadOfSum(a, b[..|b| - 1]);
    }
  }

  lemma {:induction false} HeadOfPlain(b: string)
    requires '/' !in b
    ensures Head(b) == ""
  {
    if b != "" { HeadOfPlain(b[..|b| - 1]); }
  }

  /** The directory of a normalised name: its components but the last. */
  lemma DirNameOf(comps: Path)
    requires comps != [] && AllPlain(comps)
    ensures DirName(Join(comps, '/')) == Join(comps[..|comps| - 1], '/')
  {
    var n := |comps| - 1;
    if n == 0 {
      HeadOfPlain(comps[0]);
    } else {
      JoinEnds(comps[..n]);
      JoinInit(comps);
      HeadOfSum(Join(comps[..n], '/'), comps[n]);
      TrimOneSlash(Join(comps[..n], '/'));
    }
  }

  lemma {:induction false} JoinInit(comps: Path)
    requires |comps| >= 2
    ensures Join(comps, '/') == Join(comps[..|comps| - 1], '/') + "/" + comps[|comps| - 1]
  {
    var n := |comps| - 1;
    JoinSum(comps[..n], comps[n..]);
    assert comps[..n] + comps[n..] == comps;
    assert Join(comps[n..], '/') == comps[n];
  }

  lemma TrimOneSlash(s: string)
    requires s != "" && s[|s| - 1] != '/'
    ensures TrimSlashes(s + "/") == s
  {}

  /** What a relative link target, seen from a directory of the archive, keeps. */
  lemma KeptOfLink(dir: Path, link: string)
    requires AllPlain(dir) && !IsAbs(link)
    ensures !IsAbs(JoinPath(Join(dir, '/'), link))
    ensures Kept(JoinPath(Join(dir, '/'), link)) == Fold(dir, Split(link, '/'), false)
  {
    if dir == [] {
      assert "" + link == link;
    } else {
      JoinEnds(dir);
      SplitKept(dir);
      JoinStarts(dir);
      SplitOfSum(Join(dir, '/'), link, '/');
      FoldSum([], dir, Split(link, '/'), false);
      FoldPlain([], dir, false);
      assert [] + dir == dir;
    }
  }

  /** The directory a link's target is read from: the link's own for a symbolic
      link, the archive's root for a hard link. */
  function LinkDir(m: Member): Path {
    if m.kind.Symlink? && Kept(m.name) != [] then Kept(m.name)[..|Kept(m.name)| - 1] else []
  }

  /** Every link of an accepted archive is relative and points at or below the
      extraction directory, and so does each place on its way. */
  lemma AcceptedLinkStaysInside(root: Path, m: Member, n: nat)
    requires IsRoot(root) && Accepted(root, m) && !m.kind.File?
    ensures !IsAbs(m.linkname)
    ensures root <= Resolve(root + LinkDir(m), m.linkname)
    ensures n <= |Split(m.linkname, '/')| ==>
              root <= Walk(root + LinkDir(m), Split(m.linkname, '/')[..n])
  {
    NameIsKept(root, m);
    LinkTargetText(m);
    LinkFolds(root, LinkDir(m), m.linkname);
    if n <= |Split(m.linkname, '/')| {
      SplitPieces(m.linkname);
      PrefixStays(root, LinkDir(m), Split(m.linkname, '/'), n);
    }
  }

  lemma NameIsKept(root: Path, m: Member)
    requires IsRoot(root) && NameAccepted(root, NormPath(m.name))
    ensures Kept(m.name) != [] && AllPlain(Kept(m.name)) && NormPath(m.name) == Join(Kept(m.name), '/')
  {
    NameAcceptedExactly(root, m.name);
    NormalisedShape(m.name);
    NoDotsIsPlain(Kept(m.name));
    RelativeText(m.name);
  }

  lemma LinkTargetText(m: Member)
    requires Kept(m.name) != [] && AllPlain(Kept(m.name)) && NormPath(m.name) == Join(Kept(m.name), '/')
    ensures AllPlain(LinkDir(m))
    ensures LinkTarget(NormPath(m.name), m) == NormPath(JoinPath(Join(LinkDir(m), '/'), m.linkname))
  {
    DirNameOf(Kept(m.name));
  }

  lemma LinkFolds(root: Path, dir: Path, link: string)
    requires AllPlain(root) && AllPlain(dir) && !IsAbs(link)
    requires !StartsWithDots(NormPath(JoinPath(Join(dir, '/'), link)))
    ensures root <= Resolve(root + dir, link) && AllPlain(Fold(dir, Split(link, '/'), false))
  {
    var p := JoinPath(Join(dir, '/'), link);
    KeptOfLink(dir, link);
    NormalisedShape(p);
    RelativeText(p);
    DotsShow(Kept(p));
    NoDotsIsPlain(Kept(p));
    SplitPieces(link);
    FoldShifts(root, dir, Split(link, '/'));
    assert (root + Kept(p))[..|root|] == root;
  }

  /** Exactly these links of a member whose name passes are let through: relative
      ones whose target, told from the link's directory and normalised, does not
      begin with two dots. */
  lemma LinkAcceptedExactly(root: Path, m: Member)
    requires IsRoot(root) && NameAccepted(root, NormPath(m.name)) && !m.kind.File?
    ensures var target := Fold(LinkDir(m), Split(m.linkname, '/'), false);
      LinkAccepted(NormPath(m.name), m)
      <==> !IsAbs(m.linkname) && (target == [] || !StartsWithDots(target[0]))
  {
    NameIsKept(root, m);
    LinkTargetText(m);
    if !IsAbs(m.linkname) {
      var p := JoinPath(Join(LinkDir(m), '/'), m.linkname);
      KeptOfLink(LinkDir(m), m.linkname);
      NormalisedShape(p);
      RelativeText(p);
      DotsShow(Kept(p));
      if Kept(p) != [] { JoinStarts(Kept(p)); }
    }
  }

  /** A file is let through if its name passes and it has at most 512 MiB. */
  lemma FileAcceptedExactly(root: Path, m: Member)
    requires IsRoot(root) && m.kind.File?
    ensures Accepted(root, m)
       <==> !IsAbs(m.name) && Kept(m.name) != [] && !StartsWithDots(Kept(m.name)[0]) && m.size <= 536870912
  {
    NameAcceptedExactly(root, m.name);
  }

  // ----- sizes -----------------------------------------------------------

  function TotalSize(members: seq<Member>): nat {
    if members == [] then 0 else TotalSize(members[..|members| - 1]) + members[|members| - 1].size
  }

  predicate AllAccepted(root: Path, members: seq<Member>) {
    members == []
    || (AllAccepted(root, members[..|members| - 1]) && Accepted(root, members[|members| - 1]))
  }

  lemma {:induction false} EachAccepted(root: Path, members: seq<Member>, i: nat)
    requires AllAccepted(root, members) && i < |members|
    ensures Accepted(root, members[i])
  {
    if i < |members| - 1 { EachAccepted(root, members[..|members| - 1], i); }
  }

  lemma RefusedOne(root: Path, members: seq<Member>, i: nat)
    requires i < |members| && !Accepted(root, members[i])
    ensures !AllAccepted(root, members)
  {
    if AllAccepted(root, members) { EachAccepted(root, members, i); }
  }

  /** The sizes add up. */
  lemma TotalSizeAdds(members: seq<Member>, m: Member)
    ensures TotalSize([]) == 0 && TotalSize(members + [m]) == TotalSize(members) + m.size
  {
    assert (members + [m])[..|members|] == members;
  }

  lemma AcceptedNext(root: Path, members: seq<Member>, i: nat)
    requires i < |members| && AllAccepted(root, members[..i])
    ensures AllAccepted(root, members[..i + 1]) <==> Accepted(root, members[i])
    ensures TotalSize(members[..i + 1]) == TotalSize(members[..i]) + members[i].size
  {
    var more := members[..i + 1];
    assert more[..|more| - 1] == members[..i];
  }

  datatype Refusal = TooMany | Unsafe(member: Member) | TooLarge(total: nat)

  /** `_validate_tar_member`: the size of an accepted member. */
  method ValidateMember(root: Path, m: Member) returns (size: Option<nat>)
    ensures size == if Accepted(root, m) then Some(m.size) else None
    ensures size.Some? ==> m.size <= 536870912
  {
    var memberPath := NormPath(m.name);
    if !NameAccepted(root, memberPath) || !LinkAccepted(memberPath, m) || m.size > MAX_FILE_SIZE { return None; }
    return Some(m.size);
  }

  /** The scan of `_extract_backup_tar`: let through are exactly the archives
      with few enough members, each accepted, and small enough together. */
  method CheckMembers(root: Path, members: seq<Member>) returns (r: Result<nat, Refusal>)
    ensures r.Ok? <==> |members| <= 10000 && AllAccepted(root, members) && TotalSize(members) <= 2147483648
    ensures r.Ok? ==> r.value == TotalSize(members)
    ensures r.Ok? ==> forall i :: 0 <= i < |members| ==> Accepted(root, members[i]) && members[i].size <= 536870912
    ensures r == Err(TooMany) <==> |members| > 10000
    ensures r.Err? && r.error.Unsafe? ==> r.error.member in members && !Accepted(root, r.error.member)
    ensures r.Err? && r.error.TooLarge? ==>
              AllAccepted(root, members) && r.error.total == TotalSize(members) > 2147483648
  {
    if |members| > MAX_MEMBERS { return Err(TooMany); }
    var total := 0;
    for i := 0 to |members|
      invariant AllAccepted(root, members[..i])
      invariant total == TotalSize(members[..i])
    {
      var size := ValidateMember(root, members[i]);
      if size.None? {
        RefusedOne(root, members, i);
        return Err(Unsafe(members[i]));
      }
      total := total + size.value;
      AcceptedNext(root, members, i);
    }
    assert members[..|members|] == members;
    forall i | 0 <= i < |members| ensures Accepted(root, members[i]) { EachAccepted(root, members, i); }
    if total > MAX_TOTAL_SIZE { return Err(TooLarge(total)); }
    return Ok(total);
  }

  function Concat(chunks: seq<seq<Byte>>): seq<Byte> {
    if chunks == [] then [] else Concat(chunks[..|chunks| - 1]) + chunks[|chunks| - 1]
  }

  lemma {:induction false} ConcatPrefix(chunks: seq<seq<Byte>>, i: nat)
    requires i <= |chunks|
    ensures |Concat(chunks[..i])| <= |Concat(chunks)| && Concat(chunks[..i]) <= Concat(chunks)
  {
    if i < |chunks| {
      var n := |chunks| - 1;
      ConcatPrefix(chunks[..n], i);
      assert chunks[..n][..i] == chunks[..i];
    } else {
      assert chunks[..i] == chunks;
    }
  }

  /** The copy loop of `_decompress_to_tar`: whatever the stream yields, no more
      than the limit is ever written, and a stream within it is written whole. */
  method CopyCapped(chunks: seq<seq<Byte>>) returns (ok: bool, dst: seq<Byte>)
    ensures |dst| <= 2147483648 && dst <= Concat(chunks)
    ensures ok <==> |Concat(chunks)| <= 2147483648
    ensures ok ==> dst == Concat(chunks)
  {
    var total := 0;
    dst := [];
    for i := 0 to |chunks|
      invariant dst == Concat(chunks[..i]) && total == |dst| <= MAX_TOTAL_SIZE
    {
      assert chunks[..i + 1][..i] == chunks[..i];
      ConcatPrefix(chunks, i);
      ConcatPrefix(chunks, i + 1);
      total := total + |chunks[i]|;
      if total > MAX_TOTAL_SIZE { return false, dst; }
      dst := dst + chunks[i];
    }
    assert chunks[..|chunks|] == chunks;
    return true, dst;
  }
}
