/** The line editor of the web terminal: one input line, a bounded history, and
    the gate that holds keys back while a command runs. */
module TerminalEditor {
  import opened Text

  const MAX_HISTORY: nat := 100

  const ENTER := "\r"
  const BACKSPACE := "\U{7f}"
  const CTRL_C := "\U{03}"
  const UP := "\U{1b}[A"
  const DOWN := "\U{1b}[B"
  const TAB := "\t"

  /** What the editor sends through the socket. */
  datatype Message = Command(cmd: string) | Interrupt | Complete(text: string)

  datatype Event =
    | Data(data: string, open: bool)
    | Busy(value: bool)
    | Completion(suggestions: seq<string>, text: string)

  /** The editor's fields, and all it has sent so far. */
  datatype State = State(input: string, history: seq<string>, historyIndex: int, busy: bool, sent: seq<Message>)

  const START := State("", [], -1, false, [])

  /** The characters JavaScript's `trim` removes. */
  predicate IsSpace(c: char) {
    || '\t' <= c <= '\r' || c == ' ' || c == '\U{a0}' || c == '\U{1680}' || '\U{2000}' <= c <= '\U{200a}'
    || c == '\U{2028}' || c == '\U{2029}' || c == '\U{202f}' || c == '\U{205f}' || c == '\U{3000}' || c == '\U{feff}'
  }

  predicate Blank(s: string) { forall i :: 0 <= i < |s| ==> IsSpace(s[i]) }

  predicate IsPrintable(c: char) { ' ' <= c <= '~' }

  /** `data.replace(/[^\x20-\x7e]/g, '')` */
  function Printable(s: string): string {
    if s == "" then "" else (if IsPrintable(s[0]) then [s[0]] else []) + Printable(s[1..])
  }

  /** The last `MAX_HISTORY` elements. */
  function Newest<T>(s: seq<T>): seq<T> { if |s| > MAX_HISTORY then s[|s| - MAX_HISTORY..] else s }

  /** `input` with its last word replaced. */
  function Completed(text: string, word: string): string {
    var parts := Split(text, ' ');
    Join(parts[..|parts| - 1] + [word], ' ')
  }

  // ----- the handler on values ------------------------------------------

  function Submit(st: State): State {
    State("", if Blank(st.input) then st.history else Newest(st.history + [st.input]), -1, true,
          st.sent + [Command(st.input)])
  }

  predicate IndexValid(st: State) { -1 <= st.historyIndex < |st.history| }

  function Older(st: State): State
    requires IndexValid(st)
  {
    if st.history == [] then st
    else
      var i := if st.historyIndex == -1 then |st.history| - 1 else if st.historyIndex == 0 then 0 else st.historyIndex - 1;
      st.(historyIndex := i, input := st.history[i])
  }

  function Newer(st: State): State
    requires IndexValid(st)
  {
    if st.historyIndex == -1 then st
    else if st.historyIndex < |st.history| - 1 then
      st.(historyIndex := st.historyIndex + 1, input := st.history[st.historyIndex + 1])
    else st.(historyIndex := -1, input := "")
  }

  /** What a chunk of terminal data stands for, tried in the handler's order. */
  datatype Press = Enter | Erase | Break | Up | Down | Tabulate | Chunk(text: string) | Char(c: char) | Nothing

  function Classify(data: string): Press {
    if |data| == 0 then Nothing
    else if |data| == 1 then
      if data[0] == ENTER[0] then Enter
      else if data[0] == BACKSPACE[0] then Erase
      else if data[0] == CTRL_C[0] then Break
      else if data[0] == TAB[0] then Tabulate
      else if data[0] >= ' ' then Char(data[0])
      else Nothing
    else if data == UP then Up
    else if data == DOWN then Down
    else Chunk(data)
  }

  /** One key, or one chunk of pasted text. */
  function Key(st: State, p: Press): State
    requires IndexValid(st)
  {
    match p
    case Enter => Submit(st)
    case Erase => if st.input == "" then st else st.(input := st.input[..|st.input| - 1])
    case Break => st.(input := "", historyIndex := -1, sent := st.sent + [Interrupt])
    case Up => Older(st)
    case Down => Newer(st)
    case Tabulate => if st.input == "" then st else st.(sent := st.sent + [Complete(st.input)])
    case Chunk(text) => st.(input := st.input + Printable(text))
    case Char(c) => st.(input := st.input + [c])
    case Nothing => st
  }

  function Step(st: State, e: Event): State
    requires IndexValid(st)
  {
    match e
    case Data(data, open) => if !open || st.busy then st else Key(st, Classify(data))
    case Busy(value) => st.(busy := value)
    case Completion(suggestions, text) =>
      if |suggestions| == 1 then st.(input := Completed(text, suggestions[0])) else st
  }

  function Run(st: State, events: seq<Event>): (r: State)
    requires IndexValid(st)
    ensures IndexValid(r)
    decreases |events|
  {
    if events == [] then st
    else
      var before := Run(st, events[..|events| - 1]);
      Step(before, events[|events| - 1])
  }

  lemma RunSnoc(st: State, events: seq<Event>, e: Event)
    requires IndexValid(st)
    ensures Run(st, events + [e]) == Step(Run(st, events), e)
  {}

  // ----- history ---------------------------------------------------------

  /** The commands of a log that are not blank. */
  function Submitted(sent: seq<Message>): seq<string> {
    if sent == [] then []
    else
      var m := sent[|sent| - 1];
      Submitted(sent[..|sent| - 1]) + if m.Command? && !Blank(m.cmd) then [m.cmd] else []
  }

  predicate HistoryAgrees(st: State) { st.history == Newest(Submitted(st.sent)) }

  lemma SubmitKeepsHistory(st: State)
    requires HistoryAgrees(st)
    ensures HistoryAgrees(Submit(st))
  {}

  lemma SentKeepsHistory(st: State, m: Message, input: string, historyIndex: int)
    requires HistoryAgrees(st) && !m.Command?
    ensures HistoryAgrees(st.(input := input, historyIndex := historyIndex, sent := st.sent + [m]))
  {}

  lemma KeyKeepsHistory(st: State, p: Press)
    requires IndexValid(st) && HistoryAgrees(st)
    ensures HistoryAgrees(Key(st, p))
  {
    match p
    case Enter => SubmitKeepsHistory(st);
    case Break => SentKeepsHistory(st, Interrupt, "", -1);
    case Tabulate => SentKeepsHistory(st, Complete(st.input), st.input, st.historyIndex);
    case _ =>
  }

  lemma StepKeepsHistory(st: State, e: Event)
    requires IndexValid(st) && HistoryAgrees(st)
    ensures HistoryAgrees(Step(st, e))
  {
    if e.Data? && e.open && !st.busy { KeyKeepsHistory(st, Classify(e.data)); }
  }

  /** In every run the history is the last hundred commands submitted that were
      not blank, and the index is -1 or points into it. */
  lemma {:induction false} HistoryIsTheNewest(events: seq<Event>)
    ensures IndexValid(Run(START, events)) && HistoryAgrees(Run(START, events))
  {
    if events != [] {
      var before := events[..|events| - 1];
      HistoryIsTheNewest(before);
      StepKeepsHistory(Run(START, before), events[|events| - 1]);
    }
  }

  // ----- browsing --------------------------------------------------------

  function Repeat(e: Event, k: nat): (events: seq<Event>)
    ensures |events| == k
  {
    if k == 0 then [] else Repeat(e, k - 1) + [e]
  }

  function Max0(n: int): nat { if n < 0 then 0 else n }

  lemma ArrowsShow(st: State)
    requires IndexValid(st) && !st.busy
    ensures Step(st, Data(UP, true)) == Older(st)
    ensures Step(st, Data(DOWN, true)) == Newer(st)
  {}

  /** The state that shows entry `i`, or past the last one the empty line. */
  function Showing(st: State, i: nat): State {
    if i < |st.history| then st.(historyIndex := i, input := st.history[i]) else st.(historyIndex := -1, input := "")
  }

  predicate IsDown(e: Event) { e == Data(DOWN, true) }

  predicate IsUp(e: Event) { e == Data(UP, true) }

  lemma NewerShows(st: State, i: nat, e: Event)
    requires !st.busy && IsDown(e)
    ensures IndexValid(Showing(st, i)) && Step(Showing(st, i), e) == Showing(st, i + 1)
  {}

  lemma OlderShows(st: State, i: nat, e: Event)
    requires i < |st.history| && !st.busy && IsUp(e)
    ensures IndexValid(Showing(st, i)) && Step(Showing(st, i), e) == Showing(st, Max0(i - 1))
  {}

  lemma FirstUpShows(st: State, e: Event)
    requires IndexValid(st) && st.historyIndex == -1 && !st.busy && st.history != [] && IsUp(e)
    ensures Step(st, e) == Showing(st, |st.history| - 1)
  {}

  lemma RepeatNext(from: State, e: Event, k: nat)
    requires IndexValid(from) && k > 0
    ensures Run(from, Repeat(e, k)) == Step(Run(from, Repeat(e, k - 1)), e)
  {}

  /** `k` presses of Up show the `k`-th command from the end, or the first. */
  lemma {:induction false} UpsShow(st: State, e: Event, k: nat)
    requires IndexValid(st) && st.historyIndex == -1 && !st.busy && st.history != [] && IsUp(e) && k > 0
    ensures Run(st, Repeat(e, k)) == Showing(st, Max0(|st.history| - k))
  {
    RepeatNext(st, e, k);
    if k > 1 {
      UpsShow(st, e, k - 1);
      OlderShows(st, Max0(|st.history| - (k - 1)), e);
    } else {
      assert Run(st, Repeat(e, 0)) == st;
      FirstUpShows(st, e);
    }
  }

  /** `k` presses of Down from an entry lead `k` entries on, and past the last
      one to an empty line. */
  lemma {:induction false} DownsShow(st: State, i: nat, e: Event, k: nat)
    requires i < |st.history| && !st.busy && IsDown(e)
    ensures IndexValid(Showing(st, i))
    ensures Run(Showing(st, i), Repeat(e, k)) == Showing(st, i + k)
  {
    if k == 0 {
      assert Repeat(e, 0) == [];
    } else {
      DownsShow(st, i, e, k - 1);
      NewerShows(st, i + (k - 1), e);
      RepeatNext(Showing(st, i), e, k);
    }
  }

  lemma {:induction false} RunSum(st: State, a: seq<Event>, b: seq<Event>)
    requires IndexValid(st)
    ensures Run(st, a + b) == Run(Run(st, a), b)
    decreases |b|
  {
    if b == [] {
      assert a + b == a;
    } else {
      RunSum(st, a, b[..|b| - 1]);
      assert (a + b)[..|a + b| - 1] == a + b[..|b| - 1];
    }
  }

  lemma {:induction false} StillWithoutHistory(st: State, k: nat, e: Event)
    requires IndexValid(st) && st.history == [] && !st.busy && (e == Data(UP, true) || e == Data(DOWN, true))
    ensures Run(st, Repeat(e, k)) == st
  {
    if k > 0 {
      StillWithoutHistory(st, k - 1, e);
      RunSnoc(st, Repeat(e, k - 1), e);
      ArrowsShow(st);
    }
  }

  /** From a line that is not being browsed, `k` Ups then `k` Downs come back,
      for every `k`: with a history, to an empty line; the history, the log and
      the gate are as before. Whatever had been typed is lost exactly when there
      is a history. */
  lemma UpsThenDowns(st: State, k: nat)
    requires IndexValid(st) && st.historyIndex == -1 && !st.busy && k > 0
    ensures Run(st, Repeat(Data(UP, true), k) + Repeat(Data(DOWN, true), k))
         == if st.history == [] then st else st.(input := "")
  {
    var ups, downs := Repeat(Data(UP, true), k), Repeat(Data(DOWN, true), k);
    RunSum(st, ups, downs);
    if st.history == [] {
      StillWithoutHistory(st, k, Data(UP, true));
      StillWithoutHistory(st, k, Data(DOWN, true));
    } else {
      UpsShow(st, Data(UP, true), k);
      DownsShow(st, Max0(|st.history| - k), Data(DOWN, true), k);
    }
  }

  // ----- what is sent ----------------------------------------------------

  /** No character below the space and no DEL, but for those allowed. (The code
      points from U+0080 to U+009F, and U+2028 and U+2029, are not excluded.) */
  predicate Clean(s: string, but: set<char>) {
    forall i :: 0 <= i < |s| ==> (' ' <= s[i] && s[i] != '\U{7f}') || s[i] in but
  }

  predicate AllClean(s: seq<string>, but: set<char>) { forall i :: 0 <= i < |s| ==> Clean(s[i], but) }

  predicate CleanMessage(m: Message, but: set<char>) { m.Interrupt? || Clean(if m.Command? then m.cmd else m.text, but) }

  function Characters(s: string): set<char> { set c | c in s }

  /** The characters that the completions have brought in. */
  function BroughtIn(events: seq<Event>): set<char> {
    if events == [] then {} else BroughtIn(events[..|events| - 1]) + Brought(events[|events| - 1])
  }

  function Brought(e: Event): set<char> {
    if e.Completion? && |e.suggestions| == 1 then Characters(e.text) + Characters(e.suggestions[0]) else {}
  }

  lemma PrintableIsClean(s: string, but: set<char>)
    ensures Clean(Printable(s), but)
  {}

  lemma JoinClean(parts: seq<string>, but: set<char>)
    requires AllClean(parts, but)
    ensures Clean(Join(parts, ' '), but)
  {}

  lemma SplitClean(s: string, but: set<char>)
    requires Clean(s, but)
    ensures AllClean(Split(s, ' '), but)
  {}

  lemma CompletedClean(text: string, word: string, but: set<char>)
    requires Clean(text, but) && Clean(word, but)
    ensures Clean(Completed(text, word), but)
  {
    SplitClean(text, but);
    var parts := Split(text, ' ');
    JoinClean(parts[..|parts| - 1] + [word], but);
  }

  predicate CleanMessages(sent: seq<Message>, but: set<char>) { forall i :: 0 <= i < |sent| ==> CleanMessage(sent[i], but) }

  predicate CleanState(st: State, but: set<char>) {
    Clean(st.input, but) && AllClean(st.history, but) && CleanMessages(st.sent, but)
  }

  lemma CleanMore(st: State, but: set<char>, more: set<char>)
    requires CleanState(st, but) && but <= more
    ensures CleanState(st, more)
  {}

  lemma SentStaysClean(sent: seq<Message>, m: Message, but: set<char>)
    requires CleanMessages(sent, but) && CleanMessage(m, but)
    ensures CleanMessages(sent + [m], but)
  {}

  lemma HistoryStaysClean(history: seq<string>, s: string, but: set<char>)
    requires AllClean(history, but) && Clean(s, but)
    ensures AllClean(Newest(history + [s]), but)
  {}

  lemma KeyStaysClean(st: State, p: Press, but: set<char>)
    requires IndexValid(st) && CleanState(st, but) && (p.Char? ==> Clean([p.c], but))
    ensures CleanState(Key(st, p), but)
  {
    match p
    case Enter =>
      SentStaysClean(st.sent, Command(st.input), but);
      HistoryStaysClean(st.history, st.input, but);
    case Break => SentStaysClean(st.sent, Interrupt, but);
    case Tabulate => SentStaysClean(st.sent, Complete(st.input), but);
    case Chunk(text) => PrintableIsClean(text, but);
    case _ =>
  }

  /** Whatever keys arrive and whatever is pasted, newlines included, nothing sent
      ever holds a character below the space, or DEL, that no completion brought
      in: a pasted CR or LF neither submits nor is sent. */
  lemma {:induction false} CommandsAreClean(events: seq<Event>)
    ensures CleanState(Run(START, events), BroughtIn(events))
    ensures forall cmd, c :: Command(cmd) in Run(START, events).sent && c in cmd ==>
              (c as int >= 0x20 && c as int != 0x7F) || c in BroughtIn(events)
  {
    if events != [] {
      var before, but := events[..|events| - 1], BroughtIn(events);
      var e := events[|events| - 1];
      CommandsAreClean(before);
      CleanMore(Run(START, before), BroughtIn(before), but);
      match e
      case Data(data, _) => KeyStaysClean(Run(START, before), Classify(data), but);
      case Busy(_) =>
      case Completion(suggestions, text) =>
        if |suggestions| == 1 { CompletedClean(text, suggestions[0], but); }
    }
  }

  /** And every other character can be sent: typed alone, then Enter. */
  lemma CleanCharIsSent(c: char)
    ensures Clean([c], {}) <==> Run(START, [Data([c], true), Data(ENTER, true)]).sent == [Command([c])]
  {
    var key, enter := Data([c], true), Data(ENTER, true);
    assert Run(START, []) == START;
    RunSnoc(START, [], key);
    RunSnoc(START, [key], enter);
    assert [] + [key] == [key] && [key] + [enter] == [key, enter];
    assert Classify(ENTER) == Enter && [c][0] == c;
    var mid := Step(START, key);
    if Clean([c], {}) {
      assert mid == START.(input := [c]);
    } else {
      assert mid.input == "" && forall cmd :: Command(cmd) in Step(mid, enter).sent ==> cmd == "";
    }
  }

  // ----- single keys -----------------------------------------------------

  /** The characters that JavaScript's `trim` removes. */
  const BLANKS := "\t\n\U{0b}\U{0c}\r \U{a0}\U{1680}\U{2028}\U{2029}\U{202f}\U{205f}\U{3000}\U{feff}"
    + "\U{2000}\U{2001}\U{2002}\U{2003}\U{2004}\U{2005}\U{2006}\U{2007}\U{2008}\U{2009}\U{200a}"

  lemma SpacesAreThese(c: char)
    ensures IsSpace(c) <==> c in BLANKS
  {}

  /** Enter sends the whole line and starts a new one. A line of blanks leaves the
      history; any other is added to it, and past a hundred the oldest goes. */
  lemma EnterSendsLine(st: State)
    requires IndexValid(st) && !st.busy
    ensures var r := Step(st, Data("\r", true));
      && r.sent == st.sent + [Command(st.input)] && r.input == "" && r.historyIndex == -1 && r.busy
      && ((forall c :: c in st.input ==> c in BLANKS) ==> r.history == st.history)
      && (!(forall c :: c in st.input ==> c in BLANKS) && |st.history| < 100 ==> r.history == st.history + [st.input])
      && (!(forall c :: c in st.input ==> c in BLANKS) && |st.history| == 100 ==> r.history == st.history[1..] + [st.input])
  {
    BlankExactly(st.input);
    if |st.history| == 100 { assert (st.history + [st.input])[1..] == st.history[1..] + [st.input]; }
  }

  lemma BlankExactly(s: string)
    ensures Blank(s) <==> forall c :: c in s ==> c in BLANKS
  {
    forall c ensures IsSpace(c) <==> c in BLANKS { SpacesAreThese(c); }
    if Blank(s) {
      forall c | c in s ensures c in BLANKS { var i :| 0 <= i < |s| && s[i] == c; }
    }
  }

  /** Ctrl-C sends the interrupt and drops the line: Enter then sends nothing of it. */
  lemma InterruptDropsLine(st: State)
    requires IndexValid(st) && !st.busy
    ensures var r := Step(st, Data("\U{03}", true));
      r == State("", st.history, -1, false, st.sent + [Interrupt])
      && Step(r, Data("\r", true)).sent == st.sent + [Interrupt, Command("")]
  {
    EnterSendsLine(State("", st.history, -1, false, st.sent + [Interrupt]));
    assert st.sent + [Interrupt] + [Command("")] == st.sent + [Interrupt, Command("")];
  }

  /** Tab asks for completions of a line that is not empty. */
  lemma TabAsks(st: State)
    requires IndexValid(st) && !st.busy
    ensures Step(st, Data("\t", true)) == if st.input == "" then st else st.(sent := st.sent + [Complete(st.input)])
  {}

  /** The Up and Down keys and the erase key, by what the terminal sends for them. */
  lemma ArrowsAndErase(st: State)
    requires IndexValid(st) && !st.busy
    ensures Step(st, Data("\U{1b}[A", true)) == Older(st) && Step(st, Data("\U{1b}[B", true)) == Newer(st)
    ensures Step(st, Data("\U{7f}", true)) == if st.input == "" then st else st.(input := st.input[..|st.input| - 1])
  {}

  /** Keys go nowhere while a command runs or the socket is closed; a busy message
      sets the gate. */
  lemma HeldBack(st: State, data: string, open: bool, value: bool)
    requires IndexValid(st)
    ensures !open || st.busy ==> Step(st, Data(data, open)) == st
    ensures Step(st, Busy(value)) == st.(busy := value)
  {}

  /** While a command runs nothing is sent and the history stands still, until
      the server lifts the gate. The interrupt key is held back like any other. */
  lemma {:induction false} NothingSentWhileBusy(st: State, events: seq<Event>)
    requires IndexValid(st) && st.busy
    requires Busy(false) !in events
    ensures var r := Run(st, events);
            r.busy && r.sent == st.sent && r.history == st.history && r.historyIndex == st.historyIndex
  {
    if events != [] {
      NothingSentWhileBusy(st, events[..|events| - 1]);
      assert events[|events| - 1] in events;
    }
  }

  lemma CommandShuts(st: State, e: Event, cmd: string)
    requires IndexValid(st) && Step(st, e).sent == st.sent + [Command(cmd)]
    ensures Step(st, e).busy
  {
    var sent := Step(st, e).sent;
    assert sent[|st.sent|] == Command(cmd);
  }

  /** So in every run, between a command and whatever is sent next, the server
      has lifted the gate. */
  lemma GateBetweenMessages(events: seq<Event>, i: nat, j: nat, cmd: string)
    requires i < j <= |events|
    requires Run(START, events[..i + 1]).sent == Run(START, events[..i]).sent + [Command(cmd)]
    requires Run(START, events[..j]).sent != Run(START, events[..i + 1]).sent
    ensures Busy(false) in events[i + 1..j]
  {
    BusyAfter(events, i, cmd);
    RunBetween(events, i + 1, j);
    if Busy(false) !in events[i + 1..j] { NothingSentWhileBusy(Run(START, events[..i + 1]), events[i + 1..j]); }
  }

  lemma BusyAfter(events: seq<Event>, i: nat, cmd: string)
    requires i < |events|
    requires Run(START, events[..i + 1]).sent == Run(START, events[..i]).sent + [Command(cmd)]
    ensures Run(START, events[..i + 1]).busy
  {
    assert events[..i + 1] == events[..i] + [events[i]];
    RunSnoc(START, events[..i], events[i]);
    CommandShuts(Run(START, events[..i]), events[i], cmd);
  }

  lemma RunBetween(events: seq<Event>, i: nat, j: nat)
    requires i <= j <= |events|
    ensures Run(START, events[..j]) == Run(Run(START, events[..i]), events[i..j])
  {
    assert events[..j] == events[..i] + events[i..j];
    RunSum(START, events[..i], events[i..j]);
  }

  // ----- typing and pasting ----------------------------------------------

  function Typed(text: string): (events: seq<Event>)
    ensures |events| == |text|
  {
    if text == "" then [] else Typed(text[..|text| - 1]) + [Data([text[|text| - 1]], true)]
  }

  lemma {:induction false} PrintableWhole(s: string)
    requires forall i :: 0 <= i < |s| ==> IsPrintable(s[i])
    ensures Printable(s) == s
  {
    if s != "" { PrintableWhole(s[1..]); }
  }

  lemma {:induction false} TypingAppends(st: State, text: string)
    requires IndexValid(st) && !st.busy
    requires forall i :: 0 <= i < |text| ==> IsPrintable(text[i])
    ensures Run(st, Typed(text)) == st.(input := st.input + text)
  {
    if text == "" {
      assert st.input + text == st.input;
    } else {
      var n := |text| - 1;
      TypingAppends(st, text[..n]);
      RunSnoc(st, Typed(text[..n]), Data([text[n]], true));
      CharTypes(st.(input := st.input + text[..n]), text[n]);
      assert st.input + text[..n] + [text[n]] == st.input + text;
    }
  }

  /** A line typed and entered is sent whole, after what the line held. */
  lemma TypedLineIsSent(st: State, text: string)
    requires IndexValid(st) && !st.busy
    requires forall i :: 0 <= i < |text| ==> ' ' <= text[i] <= '~'
    ensures Run(st, Typed(text) + [Data("\r", true)]).sent == st.sent + [Command(st.input + text)]
  {
    TypingAppends(st, text);
    RunSnoc(st, Typed(text), Data("\r", true));
    EnterSendsLine(st.(input := st.input + text));
  }

  lemma CharTypes(st: State, c: char)
    requires IndexValid(st) && !st.busy && IsPrintable(c)
    ensures Step(st, Data([c], true)) == st.(input := st.input + [c])
  {}

  /** Pasting printable text is typing it, unless the chunk happens to be one of
      the sequences the handler knows, none of which is printable. */
  lemma PasteIsTyping(st: State, text: string)
    requires IndexValid(st) && !st.busy && text != ""
    requires forall i :: 0 <= i < |text| ==> IsPrintable(text[i])
    ensures Step(st, Data(text, true)) == Run(st, Typed(text))
  {
    TypingAppends(st, text);
    PrintableWhole(text);
    assert IsPrintable(text[0]) && text[0] != UP[0] == DOWN[0];
    if |text| == 1 { assert text == [text[0]]; }
  }

  /** Backspace takes back what was typed. */
  lemma {:induction false} ErasingUndoesTyping(st: State, text: string)
    requires IndexValid(st) && !st.busy
    ensures Run(st.(input := st.input + text), Repeat(Data(BACKSPACE, true), |text|)) == st
    decreases |text|
  {
    if text == "" {
      assert st.input + text == st.input;
    } else {
      var n := |text| - 1;
      var erase := Data(BACKSPACE, true);
      EraseLast(st, text);
      ErasingUndoesTyping(st, text[..n]);
      RepeatFirst(erase, n);
      RunSum(st.(input := st.input + text), [erase], Repeat(erase, n));
    }
  }

  lemma EraseLast(st: State, text: string)
    requires IndexValid(st) && !st.busy && text != ""
    ensures Run(st.(input := st.input + text), [Data(BACKSPACE, true)])
         == st.(input := st.input + text[..|text| - 1])
  {}

  lemma {:induction false} RepeatFirst(e: Event, k: nat)
    ensures Repeat(e, k + 1) == [e] + Repeat(e, k)
  {
    if k > 0 { RepeatFirst(e, k - 1); }
  }

  /** A longer chunk that is neither Up nor Down leaves the line alone exactly
      when it holds no printable character. */
  lemma ChunkLeavesLine(st: State, data: string)
    requires IndexValid(st) && !st.busy && |data| > 1 && data != UP && data != DOWN
    ensures Step(st, Data(data, true)) == st.(input := st.input + Printable(data))
    ensures Step(st, Data(data, true)).input == st.input <==> forall i :: 0 <= i < |data| ==> !IsPrintable(data[i])
  {
    PrintableEmpty(data);
    ChunkAppends(st, data);
    assert |st.input + Printable(data)| == |st.input| + |Printable(data)|;
    assert st.input + "" == st.input;
  }

  lemma ChunkAppends(st: State, data: string)
    requires IndexValid(st) && !st.busy && |data| > 1 && data != UP && data != DOWN
    ensures Step(st, Data(data, true)) == st.(input := st.input + Printable(data))
  {}

  lemma {:induction false} PrintableEmpty(s: string)
    ensures Printable(s) == "" <==> forall i :: 0 <= i < |s| ==> !IsPrintable(s[i])
  {
    if s != "" {
      PrintableEmpty(s[1..]);
      assert s == [s[0]] + s[1..];
    }
  }

  /** So the right arrow, which is meant to do nothing, types `[C`. */
  lemma RightArrowTypes(st: State)
    requires IndexValid(st) && !st.busy
    ensures Step(st, Data("\U{1b}[C", true)).input == st.input + "[C"
  {}

  // ----- completion ------------------------------------------------------

  /** A single suggestion replaces just the last word of the text it answers. */
  lemma CompletionReplacesLastWord(text: string, word: string)
    ensures exists n :: 0 <= n <= |text| && ' ' !in text[n..] && (n == 0 || text[n - 1] == ' ')
                        && Completed(text, word) == text[..n] + word
  {
    var parts := Split(text, ' ');
    var last := |parts| - 1;
    JoinSplit(text, ' ');
    if last == 0 {
      assert text[0..] == parts[0] && text[..0] + word == word;
    } else {
      JoinLast(parts[..last], parts[last]);
      JoinLast(parts[..last], word);
      var head := Join(parts[..last], ' ') + " ";
      assert parts[..last] + [parts[last]] == parts;
      assert text == head + parts[last];
      var n := |head|;
      assert text[..n] == head && text[n..] == parts[last] && text[n - 1] == ' ';
    }
  }

  lemma {:induction false} JoinLast(parts: seq<string>, word: string)
    requires parts != []
    ensures Join(parts + [word], ' ') == Join(parts, ' ') + " " + word
  {
    if |parts| > 1 {
      JoinLast(parts[1..], word);
      assert (parts + [word])[1..] == parts[1..] + [word];
      assert parts[0] + [' '] + (Join(parts[1..], ' ') + " " + word) == parts[0] + [' '] + Join(parts[1..], ' ') + " " + word;
    }
  }

  // ----- the handler -----------------------------------------------------

  class Editor {
    var input: string
    var history: seq<string>
    var historyIndex: int
    var busy: bool
    var sent: seq<Message>

    ghost function Value(): State
      reads this
    {
      State(input, history, historyIndex, busy, sent)
    }

    constructor ()
      ensures Value() == START
    {
      input, history, historyIndex, busy, sent := "", [], -1, false, [];
    }

    method SubmitLine()
      requires IndexValid(Value()) && |history| <= MAX_HISTORY
      modifies this
      ensures Value() == Submit(old(Value()))
    {
      if !Blank(input) {
        history := history + [input];
        if |history| > MAX_HISTORY { history := history[1..]; }
      }
      historyIndex := -1;
      sent := sent + [Command(input)];
      input := "";
      busy := true;
    }

    method ShowOlder()
      requires IndexValid(Value())
      modifies this`input, this`historyIndex
      ensures Value() == Older(old(Value()))
    {
      if |history| > 0 {
        historyIndex := if historyIndex == -1 then |history| - 1 else Max0(historyIndex - 1);
        input := history[historyIndex];
      }
    }

    method ShowNewer()
      requires IndexValid(Value())
      modifies this`input, this`historyIndex
      ensures Value() == Newer(old(Value()))
    {
      if historyIndex != -1 {
        if historyIndex < |history| - 1 {
          historyIndex := historyIndex + 1;
          input := history[historyIndex];
        } else {
          historyIndex := -1;
          input := "";
        }
      }
    }

    /** The `onData` handler. */
    method OnData(data: string, open: bool)
      requires IndexValid(Value()) && |history| <= MAX_HISTORY
      modifies this
      ensures Value() == Step(old(Value()), Data(data, open))
      ensures IndexValid(Value()) && |history| <= MAX_HISTORY
    {
      if !open || busy { return; }
      if data == ENTER {
        SubmitLine();
      } else if data == BACKSPACE {
        if |input| > 0 { input := input[..|input| - 1]; }
      } else if data == CTRL_C {
        sent := sent + [Interrupt];
        input := "";
        historyIndex := -1;
      } else if data == UP {
        ShowOlder();
      } else if data == DOWN {
        ShowNewer();
      } else if data == TAB {
        if input != "" { sent := sent + [Complete(input)]; }
      } else if |data| > 1 {
        var text := Printable(data);
        if text != "" { input := input + text; }
      } else if data != "" && data[0] >= ' ' {
        input := input + data;
      }
    }

    method OnBusy(value: bool)
      requires IndexValid(Value())
      modifies this`busy
      ensures Value() == Step(old(Value()), Busy(value))
    {
      busy := value;
    }

    /** `handleCompletion`: the text is the one the server answers, which need
        not be the current line any more. */
    method OnCompletion(suggestions: seq<string>, text: string)
      requires IndexValid(Value())
      modifies this`input
      ensures Value() == Step(old(Value()), Completion(suggestions, text))
    {
      if |suggestions| == 1 {
        var parts := Split(text, ' ');
        parts := parts[|parts| - 1 := suggestions[0]];
        assert parts == Split(text, ' ')[..|parts| - 1] + [suggestions[0]];
        input := Join(parts, ' ');
      }
    }
  }
}
