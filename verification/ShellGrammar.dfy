/**
 The shell's command language on tokens: what the recursive descent accepts, the tree it
 builds, and the canonical printing that it inverts.
 */
module ShellGrammar {

  /** argv has room for this many words, the last place being the null pointer's. */
  const MAXARGS := 10

  datatype Kind = Read | Truncate | Append

  datatype Tok = Bar | Open | Close | Semi | Amp | To(kind: Kind) | Word(text: string)

  /** A command over words of type `W`: strings here, stretches of the line in the parser. */
  datatype Cmd<W> =
    | Exec(words: seq<W>)
    | Redir(cmd: Cmd<W>, kind: Kind, file: W)
    | Pipe(left: Cmd<W>, right: Cmd<W>)
    | List(left: Cmd<W>, right: Cmd<W>)
    | Back(cmd: Cmd<W>)

  /** One redirection: its kind and file. */
  datatype Rd<W> = Rd(kind: Kind, file: W)

  datatype Parsed<T> = Ok(value: T, rest: seq<Tok>) | Panic

  /** Redirections wrap a command from the inside out. */
  function Wrapped<W>(c: Cmd<W>, rds: seq<Rd<W>>): Cmd<W>
    decreases |rds|
  {
    if rds == [] then c
    else
      var r := rds[|rds| - 1];
      Redir(Wrapped(c, rds[..|rds| - 1]), r.kind, r.file)
  }

  predicate Starts(ts: seq<Tok>, t: Tok) {
    ts != [] && ts[0] == t
  }

  /** The tokens that end the words of a command. */
  predicate Stops(ts: seq<Tok>) {
    ts == [] || ts[0] == Bar || ts[0] == Close || ts[0] == Amp || ts[0] == Semi
  }

  // ----- the descent -----

  function ParseRedirs(rds: seq<Rd<string>>, ts: seq<Tok>): (r: Parsed<seq<Rd<string>>>)
    ensures r.Ok? ==> |r.rest| <= |ts|
    decreases |ts|
  {
    if ts == [] || !ts[0].To? then Ok(rds, ts)
    else if |ts| < 2 || !ts[1].Word? then Panic
    else ParseRedirs(rds + [Rd(ts[0].kind, ts[1].text)], ts[2..])
  }

  /** The words of a simple command, with the redirections found between them. */
  function ParseArgs(ws: seq<string>, rds: seq<Rd<string>>, ts: seq<Tok>): (r: Parsed<Cmd<string>>)
    ensures r.Ok? ==> |r.rest| <= |ts|
    decreases |ts|
  {
    if Stops(ts) then Ok(Wrapped(Exec(ws), rds), ts)
    else if !ts[0].Word? || |ws| + 1 >= MAXARGS then Panic
    else
      match ParseRedirs(rds, ts[1..])
      case Panic => Panic
      case Ok(more, rest) => ParseArgs(ws + [ts[0].text], more, rest)
  }

  function ParseExec(ts: seq<Tok>): (r: Parsed<Cmd<string>>)
    ensures r.Ok? ==> |r.rest| <= |ts|
    decreases |ts|, 0
  {
    if Starts(ts, Open) then ParseBlock(ts[1..])
    else
      match ParseRedirs([], ts)
      case Panic => Panic
      case Ok(rds, rest) => ParseArgs([], rds, rest)
  }

  /** After the opening parenthesis. */
  function ParseBlock(ts: seq<Tok>): (r: Parsed<Cmd<string>>)
    ensures r.Ok? ==> |r.rest| <= |ts|
    decreases |ts|, 4
  {
    match ParseLine(ts)
    case Panic => Panic
    case Ok(c, rest) =>
      if !Starts(rest, Close) then Panic
      else
        match ParseRedirs([], rest[1..])
        case Panic => Panic
        case Ok(rds, after) => Ok(Wrapped(c, rds), after)
  }

  function ParsePipe(ts: seq<Tok>): (r: Parsed<Cmd<string>>)
    ensures r.Ok? ==> |r.rest| <= |ts|
    decreases |ts|, 1
  {
    match ParseExec(ts)
    case Panic => Panic
    case Ok(c, rest) =>
      if !Starts(rest, Bar) then Ok(c, rest)
      else
        match ParsePipe(rest[1..])
        case Panic => Panic
        case Ok(d, after) => Ok(Pipe(c, d), after)
  }

  /** Each `&` puts the command so far in the background. */
  function Amps(c: Cmd<string>, ts: seq<Tok>): (r: Parsed<Cmd<string>>)
    ensures r.Ok? && |r.rest| <= |ts|
    decreases |ts|
  {
    if Starts(ts, Amp) then Amps(Back(c), ts[1..]) else Ok(c, ts)
  }

  function ParseLeft(ts: seq<Tok>): (r: Parsed<Cmd<string>>)
    ensures r.Ok? ==> |r.rest| <= |ts|
    decreases |ts|, 2
  {
    match ParsePipe(ts)
    case Panic => Panic
    case Ok(c, rest) => Amps(c, rest)
  }

  function ParseLine(ts: seq<Tok>): (r: Parsed<Cmd<string>>)
    ensures r.Ok? ==> |r.rest| <= |ts|
    decreases |ts|, 3
  {
    match ParseLeft(ts)
    case Panic => Panic
    case Ok(c, rest) =>
      if !Starts(rest, Semi) then Ok(c, rest)
      else
        match ParseLine(rest[1..])
        case Panic => Panic
        case Ok(d, after) => Ok(List(c, d), after)
  }

  /** The whole line: nothing may be left over. */
  function ParseAll(ts: seq<Tok>): Parsed<Cmd<string>> {
    match ParseLine(ts)
    case Panic => Panic
    case Ok(c, rest) => if rest == [] then Ok(c, rest) else Panic
  }

  // ----- printing -----

  function Words(ws: seq<string>): seq<Tok> {
    if ws == [] then [] else [Word(ws[0])] + Words(ws[1..])
  }

  function PrintLine(t: Cmd<string>): seq<Tok>
    decreases t, 4
  {
    if t.List? then PrintLeft(t.left) + [Semi] + PrintLine(t.right) else PrintLeft(t)
  }

  function PrintLeft(t: Cmd<string>): seq<Tok>
    decreases t, 3
  {
    if t.Back? then PrintLeft(t.cmd) + [Amp] else PrintPipe(t)
  }

  function PrintPipe(t: Cmd<string>): seq<Tok>
    decreases t, 2
  {
    if t.Pipe? then PrintExec(t.left) + [Bar] + PrintPipe(t.right) else PrintExec(t)
  }

  function PrintExec(t: Cmd<string>): seq<Tok>
    decreases t, 1
  {
    match t
    case Exec(ws) => Words(ws)
    case Redir(c, k, f) => PrintExec(c) + [To(k), Word(f)]
    case _ => [Open] + PrintLineOf(t) + [Close]
  }

  /** `PrintLine` of a command that needs parentheses, one level down. */
  function PrintLineOf(t: Cmd<string>): seq<Tok>
    requires t.Pipe? || t.List? || t.Back?
    decreases t, 0
  {
    match t
    case List(l, r) => PrintLeft(l) + [Semi] + PrintLine(r)
    case Back(c) => PrintLeft(c) + [Amp]
    case Pipe(l, r) => PrintExec(l) + [Bar] + PrintPipe(r)
  }

  // ----- parsing inverts printing -----

  /** At most nine words to every simple command. */
  predicate Fits(t: Cmd<string>) {
    match t
    case Exec(ws) => |ws| < MAXARGS
    case Redir(c, k, f) => Fits(c)
    case Pipe(l, r) => Fits(l) && Fits(r)
    case List(l, r) => Fits(l) && Fits(r)
    case Back(c) => Fits(c)
  }

  /** What `ParseExec` does once words `ws` and redirections `rds` are behind it. */
  function Resume(ws: seq<string>, rds: seq<Rd<string>>, ts: seq<Tok>): Parsed<Cmd<string>> {
    match ParseRedirs(rds, ts)
    case Panic => Panic
    case Ok(more, rest) => ParseArgs(ws, more, rest)
  }

  lemma {:induction false} ResumeWords(ws: seq<string>, more: seq<string>, ts: seq<Tok>)
    requires |ws| + |more| < MAXARGS
    ensures Resume(ws, [], Words(more) + ts) == Resume(ws + more, [], ts)
    decreases |more|
  {
    if more == [] {
      assert Words(more) + ts == ts && ws + more == ws;
    } else {
      var all := Words(more) + ts;
      assert all[1..] == Words(more[1..]) + ts;
      assert ws + [more[0]] + more[1..] == ws + more;
      assert Resume(ws, [], all) == Resume(ws + [more[0]], [], all[1..]);
      ResumeWords(ws + [more[0]], more[1..], ts);
    }
  }

  /** The command under its redirections, and the redirections, innermost first. */
  function Base(t: Cmd<string>): Cmd<string> {
    if t.Redir? then Base(t.cmd) else t
  }

  function Rds(t: Cmd<string>): seq<Rd<string>> {
    if t.Redir? then Rds(t.cmd) + [Rd(t.kind, t.file)] else []
  }

  lemma {:induction false} WrapRds(t: Cmd<string>)
    ensures Wrapped(Base(t), Rds(t)) == t
  {
    if t.Redir? {
      WrapRds(t.cmd);
      assert Rds(t)[..|Rds(t)| - 1] == Rds(t.cmd);
    }
  }

  /** `ParseExec` on a printed simple command, with what follows it still to be seen. */
  lemma {:induction false} SimplePrinted(t: Cmd<string>, ts: seq<Tok>)
    requires Base(t).Exec? && Fits(t) && !Starts(ts, Open)
    ensures ParseExec(PrintExec(t) + ts) == Resume(Base(t).words, Rds(t), ts)
    decreases t
  {
    if t.Exec? {
      ResumeWords([], t.words, ts);
      assert [] + t.words == t.words;
      assert !Starts(Words(t.words) + ts, Open);
    } else {
      var next := [To(t.kind), Word(t.file)] + ts;
      SimplePrinted(t.cmd, next);
      assert PrintExec(t) + ts == PrintExec(t.cmd) + next;
      assert next[2..] == ts;
    }
  }

  /** A block and its redirections, with what follows still to be seen. */
  function Enclose(c: Cmd<string>, rds: seq<Rd<string>>, ts: seq<Tok>): Parsed<Cmd<string>> {
    match ParseRedirs(rds, ts)
    case Panic => Panic
    case Ok(more, rest) => Ok(Wrapped(c, more), rest)
  }

  lemma {:induction false} BlockPrinted(t: Cmd<string>, ts: seq<Tok>)
    requires !Base(t).Exec? && Fits(t)
    ensures ParseExec(PrintExec(t) + ts) == Enclose(Base(t), Rds(t), ts)
    decreases t, 1
  {
    if t.Redir? {
      var next := [To(t.kind), Word(t.file)] + ts;
      BlockPrinted(t.cmd, next);
      assert PrintExec(t) + ts == PrintExec(t.cmd) + next;
      assert next[2..] == ts;
    } else {
      var after := [Close] + ts;
      LineOfPrinted(t, after);
      assert (PrintExec(t) + ts)[1..] == PrintLineOf(t) + after;
      assert after[1..] == ts;
    }
  }

  lemma {:induction false} ExecPrinted(t: Cmd<string>, ts: seq<Tok>)
    requires Fits(t) && Stops(ts)
    ensures ParseExec(PrintExec(t) + ts) == Ok(t, ts)
    decreases t, 2
  {
    WrapRds(t);
    if Base(t).Exec? {
      SimplePrinted(t, ts);
    } else {
      BlockPrinted(t, ts);
    }
  }

  lemma {:induction false} PipePrinted(t: Cmd<string>, ts: seq<Tok>)
    requires Fits(t) && Stops(ts) && !Starts(ts, Bar)
    ensures ParsePipe(PrintPipe(t) + ts) == Ok(t, ts)
    decreases t, 3
  {
    if t.Pipe? {
      PipeJoined(t, ts);
    } else {
      ExecPrinted(t, ts);
    }
  }

  lemma {:induction false} PipeJoined(t: Cmd<string>, ts: seq<Tok>)
    requires t.Pipe? && Fits(t) && Stops(ts) && !Starts(ts, Bar)
    ensures ParsePipe(PrintExec(t.left) + [Bar] + PrintPipe(t.right) + ts) == Ok(t, ts)
    decreases t, 0, 0
  {
    hide ParseExec, ParsePipe, PrintExec, PrintPipe;
    var next := [Bar] + (PrintPipe(t.right) + ts);
    ExecPrinted(t.left, next);
    PipePrinted(t.right, ts);
    assert PrintExec(t.left) + [Bar] + PrintPipe(t.right) + ts == PrintExec(t.left) + next;
    assert next[1..] == PrintPipe(t.right) + ts;
    PipeIs(PrintExec(t.left) + next, t.left, next);
  }

  /** The tokens that may follow a command and its `&`s. */
  predicate Ends(ts: seq<Tok>) {
    ts == [] || ts[0] == Close || ts[0] == Semi
  }

  lemma {:induction false} LeftPrinted(t: Cmd<string>, ts: seq<Tok>)
    requires Fits(t) && (Ends(ts) || Starts(ts, Amp))
    ensures ParseLeft(PrintLeft(t) + ts) == Amps(t, ts)
    decreases t, 4
  {
    if t.Back? {
      var next := [Amp] + ts;
      LeftPrinted(t.cmd, next);
      assert PrintLeft(t) + ts == PrintLeft(t.cmd) + next;
      assert next[1..] == ts;
    } else {
      PipePrinted(t, ts);
    }
  }

  lemma {:induction false} LinePrinted(t: Cmd<string>, ts: seq<Tok>)
    requires Fits(t) && Ends(ts) && !Starts(ts, Semi)
    ensures ParseLine(PrintLine(t) + ts) == Ok(t, ts)
    decreases t, 5
  {
    if t.List? {
      ListPrinted(t, ts);
    } else {
      LeftPrinted(t, ts);
    }
  }

  lemma {:induction false} ListPrinted(t: Cmd<string>, ts: seq<Tok>)
    requires t.List? && Fits(t) && Ends(ts) && !Starts(ts, Semi)
    ensures ParseLine(PrintLeft(t.left) + [Semi] + PrintLine(t.right) + ts) == Ok(t, ts)
    decreases t, 0, 0
  {
    hide ParseLeft, ParseLine, PrintLeft, PrintLine;
    var next := [Semi] + (PrintLine(t.right) + ts);
    LeftPrinted(t.left, next);
    LinePrinted(t.right, ts);
    assert PrintLeft(t.left) + [Semi] + PrintLine(t.right) + ts == PrintLeft(t.left) + next;
    assert next[1..] == PrintLine(t.right) + ts;
    LineIs(PrintLeft(t.left) + next, t.left, next);
  }

  lemma {:induction false} LineOfPrinted(t: Cmd<string>, ts: seq<Tok>)
    requires (t.Pipe? || t.List? || t.Back?) && Fits(t) && Starts(ts, Close)
    ensures ParseLine(PrintLineOf(t) + ts) == Ok(t, ts)
    decreases t, 0, 1
  {
    match t
    case List(l, r) =>
      ListPrinted(t, ts);
    case Pipe(l, r) =>
      PipeJoined(t, ts);
    case Back(c) =>
      var next := [Amp] + ts;
      LeftPrinted(c, next);
      assert PrintLineOf(t) + ts == PrintLeft(c) + next;
      assert next[1..] == ts;
    case _ =>
  }

  /** Parsing the printing of any command gives the command back. */
  lemma ParsePrint(t: Cmd<string>)
    requires Fits(t)
    ensures ParseAll(PrintLine(t)) == Ok(t, [])
  {
    LinePrinted(t, []);
    assert PrintLine(t) + [] == PrintLine(t);
  }

  /** And nothing with ten words or more is ever parsed. */
  lemma {:induction false} WrapFits(c: Cmd<string>, rds: seq<Rd<string>>)
    ensures Fits(Wrapped(c, rds)) == Fits(c)
    decreases |rds|
  {
    if rds != [] {
      WrapFits(c, rds[..|rds| - 1]);
    }
  }

  lemma {:induction false} ArgsFit(ws: seq<string>, rds: seq<Rd<string>>, ts: seq<Tok>)
    requires |ws| < MAXARGS && ParseArgs(ws, rds, ts).Ok?
    ensures Fits(ParseArgs(ws, rds, ts).value)
    decreases |ts|
  {
    if Stops(ts) {
      WrapFits(Exec(ws), rds);
    } else {
      var m := ParseRedirs(rds, ts[1..]);
      ArgsFit(ws + [ts[0].text], m.value, m.rest);
    }
  }

  lemma {:induction false} AmpsFit(c: Cmd<string>, ts: seq<Tok>)
    requires Fits(c)
    ensures Fits(Amps(c, ts).value)
    decreases |ts|
  {
    if Starts(ts, Amp) {
      AmpsFit(Back(c), ts[1..]);
    }
  }

  lemma {:induction false} ExecFits(ts: seq<Tok>)
    requires ParseExec(ts).Ok?
    ensures Fits(ParseExec(ts).value)
    decreases |ts|, 0
  {
    if Starts(ts, Open) {
      LineFits(ts[1..]);
      var c := ParseLine(ts[1..]);
      WrapFits(c.value, ParseRedirs([], c.rest[1..]).value);
    } else {
      var m := ParseRedirs([], ts);
      ArgsFit([], m.value, m.rest);
    }
  }

  lemma {:induction false} PipeFits(ts: seq<Tok>)
    requires ParsePipe(ts).Ok?
    ensures Fits(ParsePipe(ts).value)
    decreases |ts|, 1
  {
    ExecFits(ts);
    var c := ParseExec(ts);
    if Starts(c.rest, Bar) {
      PipeFits(c.rest[1..]);
    }
  }

  lemma {:induction false} LineFits(ts: seq<Tok>)
    requires ParseLine(ts).Ok?
    ensures Fits(ParseLine(ts).value)
    decreases |ts|, 2
  {
    PipeFits(ts);
    AmpsFit(ParsePipe(ts).value, ParsePipe(ts).rest);
    var c := ParseLeft(ts);
    if Starts(c.rest, Semi) {
      LineFits(c.rest[1..]);
    }
  }

  /** So the trees the parser builds are exactly those with at most nine words a command. */
  lemma Parses(t: Cmd<string>)
    ensures Fits(t) <==> exists ts :: ParseAll(ts) == Ok(t, [])
  {
    if Fits(t) {
      ParsePrint(t);
    }
    forall ts | ParseAll(ts) == Ok(t, []) ensures Fits(t) {
      LineFits(ts);
    }
  }

  // ----- the language: how tokens derive, and the tree each derivation stands for -----

  /** A word of a simple command, or a redirection, in any order. */
  datatype Item = Arg(text: string) | Red(kind: Kind, file: string)

  datatype Syn =
    | Simple(items: seq<Item>)
    | Block(line: Syn, reds: seq<Rd<string>>)
    | Piped(left: Syn, right: Syn)
    | Amped(cmd: Syn)
    | Then(left: Syn, right: Syn)

  function ItemToks(items: seq<Item>): seq<Tok> {
    if items == [] then []
    else
      (match items[0]
       case Arg(w) => [Word(w)]
       case Red(k, f) => [To(k), Word(f)]) + ItemToks(items[1..])
  }

  function RedToks(rds: seq<Rd<string>>): seq<Tok> {
    if rds == [] then [] else [To(rds[0].kind), Word(rds[0].file)] + RedToks(rds[1..])
  }

  /** The words, in order. */
  function ArgsOf(items: seq<Item>): seq<string> {
    if items == [] then [] else (if items[0].Arg? then [items[0].text] else []) + ArgsOf(items[1..])
  }

  /** The redirections, in order. */
  function RedsOf(items: seq<Item>): seq<Rd<string>> {
    if items == [] then []
    else (if items[0].Red? then [Rd(items[0].kind, items[0].file)] else []) + RedsOf(items[1..])
  }

  /**
   Lists over background marks over pipelines over commands; a pipeline and a list group to the
   right; at most nine words to a simple command.
   */
  predicate Derives(s: Syn, level: nat) {
    match s
    case Simple(items) => |ArgsOf(items)| < MAXARGS
    case Block(line, reds) => Derives(line, 3)
    case Piped(l, r) => level >= 1 && Derives(l, 0) && Derives(r, 1)
    case Amped(c) => level >= 2 && Derives(c, 2)
    case Then(l, r) => level >= 3 && Derives(l, 2) && Derives(r, 3)
  }

  function Toks(s: Syn): seq<Tok> {
    match s
    case Simple(items) => ItemToks(items)
    case Block(line, reds) => [Open] + Toks(line) + [Close] + RedToks(reds)
    case Piped(l, r) => Toks(l) + [Bar] + Toks(r)
    case Amped(c) => Toks(c) + [Amp]
    case Then(l, r) => Toks(l) + [Semi] + Toks(r)
  }

  /** The tree: every redirection of a command around it, the first innermost. */
  function TreeOf(s: Syn): Cmd<string> {
    match s
    case Simple(items) => Wrapped(Exec(ArgsOf(items)), RedsOf(items))
    case Block(line, reds) => Wrapped(TreeOf(line), reds)
    case Piped(l, r) => Pipe(TreeOf(l), TreeOf(r))
    case Amped(c) => Back(TreeOf(c))
    case Then(l, r) => List(TreeOf(l), TreeOf(r))
  }

  /** What is under the redirections, and the redirections, are what was wrapped. */
  lemma {:induction false} WrappedParts(c: Cmd<string>, rds: seq<Rd<string>>)
    requires !c.Redir?
    ensures Base(Wrapped(c, rds)) == c && Rds(Wrapped(c, rds)) == rds
    decreases |rds|
  {
    if rds != [] {
      WrappedParts(c, rds[..|rds| - 1]);
    }
  }

  // ----- one step of each function -----

  lemma ResumeArg(ws: seq<string>, rds: seq<Rd<string>>, w: string, ts: seq<Tok>)
    requires |ws| + 1 < MAXARGS
    ensures Resume(ws, rds, [Word(w)] + ts) == Resume(ws + [w], rds, ts)
  {
    var all := [Word(w)] + ts;
    assert all[0] == Word(w) && all[1..] == ts;
  }

  lemma ResumeRed(ws: seq<string>, rds: seq<Rd<string>>, k: Kind, f: string, ts: seq<Tok>)
    ensures Resume(ws, rds, [To(k), Word(f)] + ts) == Resume(ws, rds + [Rd(k, f)], ts)
  {
    var all := [To(k), Word(f)] + ts;
    assert all[0] == To(k) && all[1] == Word(f) && all[2..] == ts;
  }

  /** What a parse that came through met first. */
  lemma ResumeFirst(ws: seq<string>, rds: seq<Rd<string>>, ts: seq<Tok>)
    requires Resume(ws, rds, ts).Ok?
    ensures || Stops(ts) || (ts[0].Word? && |ws| + 1 < MAXARGS)
            || (|ts| >= 2 && ts[0].To? && ts[1].Word?)
  {
  }

  lemma BlockParts(ts: seq<Tok>)
    requires Starts(ts, Open) && ParseExec(ts).Ok?
    ensures ParseLine(ts[1..]).Ok?
    ensures var c := ParseLine(ts[1..]);
            && Starts(c.rest, Close) && ParseRedirs([], c.rest[1..]).Ok?
            && var m := ParseRedirs([], c.rest[1..]);
            ParseExec(ts) == Ok(Wrapped(c.value, m.value), m.rest)
  {
  }

  lemma ExecResumes(ts: seq<Tok>)
    requires !Starts(ts, Open)
    ensures ParseExec(ts) == Resume([], [], ts)
  {
  }

  lemma BlockIs(ts: seq<Tok>, c: Cmd<string>, rest: seq<Tok>, rds: seq<Rd<string>>, after: seq<Tok>)
    requires ParseLine(ts) == Ok(c, [Close] + rest) && ParseRedirs([], rest) == Ok(rds, after)
    ensures ParseExec([Open] + ts) == Ok(Wrapped(c, rds), after)
  {
    assert ([Open] + ts)[1..] == ts && ([Close] + rest)[1..] == rest;
  }

  lemma PipeIs(ts: seq<Tok>, c: Cmd<string>, rest: seq<Tok>)
    requires ParseExec(ts) == Ok(c, rest)
    ensures ParsePipe(ts) == if !Starts(rest, Bar) then Ok(c, rest)
                             else
                               match ParsePipe(rest[1..])
                               case Panic => Panic
                               case Ok(d, after) => Ok(Pipe(c, d), after)
  {
  }

  lemma PipeParts(ts: seq<Tok>)
    requires ParsePipe(ts).Ok?
    ensures ParseExec(ts).Ok?
  {
  }

  lemma LineIs(ts: seq<Tok>, c: Cmd<string>, rest: seq<Tok>)
    requires ParseLeft(ts) == Ok(c, rest)
    ensures ParseLine(ts) == if !Starts(rest, Semi) then Ok(c, rest)
                             else
                               match ParseLine(rest[1..])
                               case Panic => Panic
                               case Ok(d, after) => Ok(List(c, d), after)
  {
  }

  lemma LineParts(ts: seq<Tok>)
    requires ParseLine(ts).Ok?
    ensures ParsePipe(ts).Ok? && ParseLeft(ts) == Amps(ParsePipe(ts).value, ParsePipe(ts).rest)
  {
  }

  // ----- every derivation is parsed to its tree -----

  lemma ResumeStops(ws: seq<string>, rds: seq<Rd<string>>, ts: seq<Tok>)
    requires Stops(ts)
    ensures Resume(ws, rds, ts) == Ok(Wrapped(Exec(ws), rds), ts)
  {
  }

  lemma {:induction false} ResumeItems(ws: seq<string>, rds: seq<Rd<string>>, items: seq<Item>, ts: seq<Tok>)
    requires |ws| + |ArgsOf(items)| < MAXARGS && Stops(ts)
    ensures Resume(ws, rds, ItemToks(items) + ts) == Ok(Wrapped(Exec(ws + ArgsOf(items)), rds + RedsOf(items)), ts)
    decreases |items|
  {
    hide Wrapped, Resume;
    var all := ItemToks(items) + ts;
    if items == [] {
      ResumeStops(ws, rds, ts);
      assert all == ts && ws + ArgsOf(items) == ws && rds + RedsOf(items) == rds;
    } else {
      var rest := ItemToks(items[1..]) + ts;
      match items[0]
      case Arg(w) =>
        assert all == [Word(w)] + rest;
        ResumeArg(ws, rds, w, rest);
        ResumeItems(ws + [w], rds, items[1..], ts);
        assert ws + [w] + ArgsOf(items[1..]) == ws + ArgsOf(items);
        assert RedsOf(items[1..]) == RedsOf(items);
      case Red(k, f) =>
        assert all == [To(k), Word(f)] + rest;
        ResumeRed(ws, rds, k, f, rest);
        ResumeItems(ws, rds + [Rd(k, f)], items[1..], ts);
        assert rds + [Rd(k, f)] + RedsOf(items[1..]) == rds + RedsOf(items);
        assert ArgsOf(items[1..]) == ArgsOf(items);
    }
  }

  /** A simple command: its words and redirections in any order, then a token that ends it. */
  lemma ExecItems(items: seq<Item>, ts: seq<Tok>)
    requires |ArgsOf(items)| < MAXARGS && Stops(ts)
    ensures ParseExec(ItemToks(items) + ts).Ok?
    ensures var r := ParseExec(ItemToks(items) + ts);
            r.rest == ts && Base(r.value) == Exec(ArgsOf(items)) && Rds(r.value) == RedsOf(items)
    ensures ParseExec(ItemToks(items) + ts) == Ok(TreeOf(Simple(items)), ts)
  {
    hide Wrapped;
    ResumeItems([], [], items, ts);
    WrappedParts(Exec(ArgsOf(items)), RedsOf(items));
    assert [] + ArgsOf(items) == ArgsOf(items) && [] + RedsOf(items) == RedsOf(items);
    assert !Starts(ItemToks(items) + ts, Open);
    ExecResumes(ItemToks(items) + ts);
  }

  lemma {:induction false} RedirsRead(rds: seq<Rd<string>>, more: seq<Rd<string>>, ts: seq<Tok>)
    requires ts == [] || !ts[0].To?
    ensures ParseRedirs(rds, RedToks(more) + ts) == Ok(rds + more, ts)
    decreases |more|
  {
    var all := RedToks(more) + ts;
    if more == [] {
      assert all == ts && rds + more == rds;
    } else {
      assert all == [To(more[0].kind), Word(more[0].file)] + (RedToks(more[1..]) + ts);
      assert all[2..] == RedToks(more[1..]) + ts;
      RedirsRead(rds + [more[0]], more[1..], ts);
      assert rds + [more[0]] + more[1..] == rds + more;
    }
  }

  lemma {:induction false} ExecDerived(s: Syn, ts: seq<Tok>)
    requires Derives(s, 0) && Stops(ts)
    ensures ParseExec(Toks(s) + ts) == Ok(TreeOf(s), ts)
    decreases s, 0
  {
    hide ParseExec, ParseLine, ParseRedirs, Wrapped, RedToks, ItemToks, ArgsOf, RedsOf;
    match s
    case Simple(items) => ExecItems(items, ts);
    case Block(line, reds) =>
      var after := RedToks(reds) + ts;
      LineDerived(line, [Close] + after);
      RedirsRead([], reds, ts);
      assert [] + reds == reds;
      BlockIs(Toks(line) + ([Close] + after), TreeOf(line), after, reds, ts);
      Bracketed(Toks(line), RedToks(reds), ts);
    case _ =>
  }

  lemma Bracketed(line: seq<Tok>, reds: seq<Tok>, ts: seq<Tok>)
    ensures [Open] + line + [Close] + reds + ts == [Open] + (line + ([Close] + (reds + ts)))
  {
  }

  lemma {:induction false} PipeDerived(s: Syn, ts: seq<Tok>)
    requires Derives(s, 1) && Stops(ts) && !Starts(ts, Bar)
    ensures ParsePipe(Toks(s) + ts) == Ok(TreeOf(s), ts)
    decreases s, 1
  {
    hide ParseExec, ParsePipe, Wrapped, RedToks, ItemToks, ArgsOf, RedsOf;
    if s.Piped? {
      var next := [Bar] + (Toks(s.right) + ts);
      ExecDerived(s.left, next);
      PipeDerived(s.right, ts);
      assert Toks(s) + ts == Toks(s.left) + next && next[1..] == Toks(s.right) + ts;
      PipeIs(Toks(s) + ts, TreeOf(s.left), next);
    } else {
      ExecDerived(s, ts);
      PipeIs(Toks(s) + ts, TreeOf(s), ts);
    }
  }

  lemma {:induction false} LeftDerived(s: Syn, ts: seq<Tok>)
    requires Derives(s, 2) && (Ends(ts) || Starts(ts, Amp))
    ensures ParseLeft(Toks(s) + ts) == Amps(TreeOf(s), ts)
    decreases s, 2
  {
    hide ParsePipe, Wrapped;
    if s.Amped? {
      var next := [Amp] + ts;
      LeftDerived(s.cmd, next);
      assert Toks(s) + ts == Toks(s.cmd) + next && next[1..] == ts;
    } else {
      PipeDerived(s, ts);
    }
  }

  lemma {:induction false} LineDerived(s: Syn, ts: seq<Tok>)
    requires Derives(s, 3) && Ends(ts) && !Starts(ts, Semi)
    ensures ParseLine(Toks(s) + ts) == Ok(TreeOf(s), ts)
    decreases s, 3
  {
    hide ParseLeft, ParseLine, Wrapped;
    if s.Then? {
      var next := [Semi] + (Toks(s.right) + ts);
      LeftDerived(s.left, next);
      LineDerived(s.right, ts);
      assert Toks(s) + ts == Toks(s.left) + next && next[1..] == Toks(s.right) + ts;
      LineIs(Toks(s) + ts, TreeOf(s.left), next);
    } else {
      LeftDerived(s, ts);
      LineIs(Toks(s) + ts, TreeOf(s), ts);
    }
  }

  // ----- and nothing else is -----

  /** Two stretches of tokens around a token, with what follows. */
  lemma Glue(l: seq<Tok>, t: Tok, r: seq<Tok>, rest: seq<Tok>, tail: seq<Tok>, all: seq<Tok>)
    requires all == l + tail && Starts(tail, t) && tail[1..] == r + rest
    ensures all == l + [t] + r + rest
  {
    assert tail == [t] + tail[1..];
  }

  lemma {:induction false} RedsRead(rds: seq<Rd<string>>, ts: seq<Tok>) returns (more: seq<Rd<string>>)
    requires ParseRedirs(rds, ts).Ok?
    ensures var r := ParseRedirs(rds, ts);
            && ts == RedToks(more) + r.rest && r.value == rds + more && (r.rest == [] || !r.rest[0].To?)
    decreases |ts|
  {
    if ts == [] || !ts[0].To? {
      more := [];
      assert RedToks(more) + ts == ts && rds + more == rds;
    } else {
      var rd := Rd(ts[0].kind, ts[1].text);
      var rest := RedsRead(rds + [rd], ts[2..]);
      more := [rd] + rest;
      assert more[1..] == rest && rds + more == rds + [rd] + rest;
      assert RedToks(more) == [ts[0], ts[1]] + RedToks(rest);
      assert ts == [ts[0], ts[1]] + ts[2..];
    }
  }

  lemma ItemsStep(x: Item, more: seq<Item>)
    ensures ItemToks([x] + more) == (if x.Arg? then [Word(x.text)] else [To(x.kind), Word(x.file)]) + ItemToks(more)
    ensures ArgsOf([x] + more) == (if x.Arg? then [x.text] else []) + ArgsOf(more)
    ensures RedsOf([x] + more) == (if x.Red? then [Rd(x.kind, x.file)] else []) + RedsOf(more)
  {
    assert ([x] + more)[0] == x && ([x] + more)[1..] == more;
  }

  /** The items behind a parse that has `ws` and `rds` behind it. */
  lemma {:induction false} ItemsRead(ws: seq<string>, rds: seq<Rd<string>>, ts: seq<Tok>) returns (items: seq<Item>)
    requires |ws| < MAXARGS && Resume(ws, rds, ts).Ok?
    ensures var r := Resume(ws, rds, ts);
            && ts == ItemToks(items) + r.rest && Stops(r.rest) && |ws| + |ArgsOf(items)| < MAXARGS
            && r.value == Wrapped(Exec(ws + ArgsOf(items)), rds + RedsOf(items))
    decreases |ts|
  {
    hide Wrapped, Resume;
    ResumeFirst(ws, rds, ts);
    if Stops(ts) {
      items := [];
      ResumeStops(ws, rds, ts);
      assert ws + [] == ws && rds + [] == rds;
    } else if ts[0].Word? {
      var w := ts[0].text;
      assert ts == [Word(w)] + ts[1..];
      ResumeArg(ws, rds, w, ts[1..]);
      var more := ItemsRead(ws + [w], rds, ts[1..]);
      items := [Arg(w)] + more;
      ItemsStep(Arg(w), more);
      assert ws + [w] + ArgsOf(more) == ws + ArgsOf(items);
      assert rds + RedsOf(items) == rds + RedsOf(more);
    } else {
      var rd := Rd(ts[0].kind, ts[1].text);
      assert ts == [To(rd.kind), Word(rd.file)] + ts[2..];
      ResumeRed(ws, rds, rd.kind, rd.file, ts[2..]);
      var more := ItemsRead(ws, rds + [rd], ts[2..]);
      items := [Red(rd.kind, rd.file)] + more;
      ItemsStep(Red(rd.kind, rd.file), more);
      assert ws + ArgsOf(items) == ws + ArgsOf(more);
      assert rds + [rd] + RedsOf(more) == rds + RedsOf(items);
    }
  }

  lemma {:induction false} ExecRead(ts: seq<Tok>) returns (s: Syn)
    requires ParseExec(ts).Ok?
    ensures var r := ParseExec(ts);
            Derives(s, 0) && ts == Toks(s) + r.rest && r.value == TreeOf(s)
    decreases |ts|, 0
  {
    hide ParseExec, ParseLine, ParseRedirs, Resume, Wrapped, RedToks, ItemToks, ArgsOf, RedsOf;
    if Starts(ts, Open) {
      BlockParts(ts);
      var line := LineRead(ts[1..]);
      var c := ParseLine(ts[1..]);
      var reds := RedsRead([], c.rest[1..]);
      s := Block(line, reds);
      Glue(Toks(line), Close, RedToks(reds), ParseExec(ts).rest, c.rest, ts[1..]);
      Enclosed(ts, Toks(line), RedToks(reds), ParseExec(ts).rest);
      assert [] + reds == reds;
    } else {
      ExecResumes(ts);
      var items := ItemsRead([], [], ts);
      s := Simple(items);
      assert [] + ArgsOf(items) == ArgsOf(items) && [] + RedsOf(items) == RedsOf(items);
    }
  }

  lemma Enclosed(ts: seq<Tok>, line: seq<Tok>, reds: seq<Tok>, rest: seq<Tok>)
    requires Starts(ts, Open) && ts[1..] == line + [Close] + reds + rest
    ensures ts == [Open] + line + [Close] + reds + rest
  {
    assert ts == [Open] + ts[1..];
  }

  lemma {:induction false} PipeRead(ts: seq<Tok>) returns (s: Syn)
    requires ParsePipe(ts).Ok?
    ensures var r := ParsePipe(ts);
            Derives(s, 1) && ts == Toks(s) + r.rest && r.value == TreeOf(s)
    decreases |ts|, 1
  {
    hide ParseExec, ParsePipe, Wrapped, ItemToks, RedToks, ArgsOf, RedsOf;
    PipeParts(ts);
    s := ExecRead(ts);
    var c := ParseExec(ts);
    PipeIs(ts, c.value, c.rest);
    if Starts(c.rest, Bar) {
      var right := PipeRead(c.rest[1..]);
      Glue(Toks(s), Bar, Toks(right), ParsePipe(ts).rest, c.rest, ts);
      s := Piped(s, right);
    } else {
      Widens(s, 0, 1);
    }
  }

  lemma {:induction false} AmpsRead(s: Syn, ts: seq<Tok>) returns (u: Syn)
    requires Derives(s, 2)
    ensures var r := Amps(TreeOf(s), ts);
            Derives(u, 2) && Toks(s) + ts == Toks(u) + r.rest && r.value == TreeOf(u)
    decreases |ts|
  {
    u := s;
    if Starts(ts, Amp) {
      u := AmpsRead(Amped(s), ts[1..]);
      assert ts == [Amp] + ts[1..];
    }
  }

  lemma {:induction false} LineRead(ts: seq<Tok>) returns (s: Syn)
    requires ParseLine(ts).Ok?
    ensures var r := ParseLine(ts);
            Derives(s, 3) && ts == Toks(s) + r.rest && r.value == TreeOf(s)
    decreases |ts|, 2
  {
    hide ParsePipe, ParseLeft, ParseLine, Wrapped, ItemToks, RedToks, ArgsOf, RedsOf, Amps;
    LineParts(ts);
    var p := PipeRead(ts);
    Widens(p, 1, 2);
    s := AmpsRead(p, ParsePipe(ts).rest);
    var c := ParseLeft(ts);
    LineIs(ts, c.value, c.rest);
    if Starts(c.rest, Semi) {
      var right := LineRead(c.rest[1..]);
      Glue(Toks(s), Semi, Toks(right), ParseLine(ts).rest, c.rest, ts);
      s := Then(s, right);
    } else {
      Widens(s, 2, 3);
    }
  }

  lemma {:induction false} Widens(s: Syn, l: nat, m: nat)
    requires Derives(s, l) && l <= m
    ensures Derives(s, m)
  {
  }

  /** The parser builds a tree exactly from the token lines that derive it. */
  lemma Language(ts: seq<Tok>, t: Cmd<string>)
    ensures ParseAll(ts) == Ok(t, []) <==> exists s :: Derives(s, 3) && Toks(s) == ts && TreeOf(s) == t
  {
    if ParseAll(ts) == Ok(t, []) {
      var s := LineRead(ts);
      assert Toks(s) + [] == Toks(s);
    }
    if s :| Derives(s, 3) && Toks(s) == ts && TreeOf(s) == t {
      LineDerived(s, []);
      assert Toks(s) + [] == Toks(s);
    }
  }
}
