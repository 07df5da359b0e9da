/**
 The shell's parser itself: a cursor moving over a NUL-terminated buffer, trees whose words
 are stretches of that buffer, and the pass that writes a NUL after each of them.
 */
module ShellParser {
  import opened Collections
  import opened ShellGrammar
  import opened ShellLexer
  import G = ShellGrammar

  /** The characters from `q` up to `eq`, as the pointers in `argv` and `eargv`. */
  datatype Span = Span(q: nat, eq: nat)

  datatype Outcome = Built(cmd: Cmd<Span>) | Died

  // ----- trees over a line -----

  /** A whole word of the line: blank-free, and ended by a blank or by the line. */
  predicate IsWord(line: string, sp: Span) {
    && sp.q < sp.eq <= |line|
    && (forall i :: sp.q <= i < sp.eq ==> !Space(line[i]))
    && (sp.eq < |line| ==> Space(line[sp.eq]))
  }

  function Of(line: string, sp: Span): string {
    if sp.q <= sp.eq <= |line| then line[sp.q..sp.eq] else ""
  }

  function Texts(line: string, ws: seq<Span>): (r: seq<string>)
    ensures |r| == |ws|
  {
    seq(|ws|, i requires 0 <= i < |ws| => Of(line, ws[i]))
  }

  function RdTexts(line: string, rds: seq<Rd<Span>>): (r: seq<Rd<string>>)
    ensures |r| == |rds|
  {
    seq(|rds|, i requires 0 <= i < |rds| => Rd(rds[i].kind, Of(line, rds[i].file)))
  }

  function Tree(line: string, c: Cmd<Span>): Cmd<string> {
    match c
    case Exec(ws) => Exec(Texts(line, ws))
    case Redir(d, k, f) => Redir(Tree(line, d), k, Of(line, f))
    case Pipe(l, r) => Pipe(Tree(line, l), Tree(line, r))
    case List(l, r) => List(Tree(line, l), Tree(line, r))
    case Back(d) => Back(Tree(line, d))
  }

  function SpanSet(ws: seq<Span>): set<Span> {
    set w | w in ws
  }

  /** The spans of a tree: its `argv` and file pointers. */
  function Spans(c: Cmd<Span>): set<Span> {
    match c
    case Exec(ws) => SpanSet(ws)
    case Redir(d, k, f) => Spans(d) + {f}
    case Pipe(l, r) => Spans(l) + Spans(r)
    case List(l, r) => Spans(l) + Spans(r)
    case Back(d) => Spans(d)
  }

  predicate AllWords(line: string, c: Cmd<Span>) {
    forall sp :: sp in Spans(c) ==> IsWord(line, sp)
  }

  predicate RdWords(line: string, rds: seq<Rd<Span>>) {
    forall i :: 0 <= i < |rds| ==> IsWord(line, rds[i].file)
  }

  lemma {:induction false} TreeWrap(line: string, c: Cmd<Span>, rds: seq<Rd<Span>>)
    ensures Tree(line, Wrapped(c, rds)) == Wrapped(Tree(line, c), RdTexts(line, rds))
    ensures AllWords(line, c) && RdWords(line, rds) ==> AllWords(line, Wrapped(c, rds))
    decreases |rds|
  {
    if rds != [] {
      var n := |rds| - 1;
      TreeWrap(line, c, rds[..n]);
      assert RdTexts(line, rds)[..n] == RdTexts(line, rds[..n]);
    }
  }

  /** A parsing method does what its grammar function says, and leaves the cursor there. */
  ghost predicate Agrees(line: string, p: Parsed<Cmd<string>>, r: Outcome, rest: seq<Tok>) {
    match p
    case Panic => r == Died
    case Ok(t, after) => r.Built? && AllWords(line, r.cmd) && Tree(line, r.cmd) == t && rest == after
  }

  /** What `gettoken` returns for the token at hand. */
  function Code(ts: seq<Tok>): char {
    if ts == [] then NUL
    else
      match ts[0]
      case Bar => '|'
      case Open => '('
      case Close => ')'
      case Semi => ';'
      case Amp => '&'
      case To(Read) => '<'
      case To(Truncate) => '>'
      case To(Append) => '+'
      case Word(w) => 'a'
  }

  /** The character `peek` sees, for a token that is not a word. */
  function Lead(t: Tok): char
    requires !t.Word?
  {
    Text(t)[0]
  }

  lemma RdsMore(line: string, rds: seq<Rd<Span>>, k: Kind, sp: Span)
    requires RdWords(line, rds) && IsWord(line, sp)
    ensures RdWords(line, rds + [Rd(k, sp)])
    ensures RdTexts(line, rds + [Rd(k, sp)]) == RdTexts(line, rds) + [Rd(k, Of(line, sp))]
  {
  }

  lemma WordsMore(line: string, ws: seq<Span>, sp: Span)
    requires AllWords(line, Exec(ws)) && IsWord(line, sp)
    ensures AllWords(line, Exec(ws + [sp]))
    ensures Texts(line, ws + [sp]) == Texts(line, ws) + [Of(line, sp)]
  {
    forall w | w in Spans(Exec(ws + [sp])) ensures IsWord(line, w) {
      if w in ws {
        assert w in Spans(Exec(ws));
      }
    }
  }

  lemma NoWords(line: string)
    ensures AllWords(line, Exec([])) && RdWords(line, []) && Texts(line, []) == [] && RdTexts(line, []) == []
  {
  }

  lemma TreeBack(line: string, c: Cmd<Span>)
    requires AllWords(line, c)
    ensures AllWords(line, Back(c)) && Tree(line, Back(c)) == Back(Tree(line, c))
  {
  }

  lemma TreeJoin(line: string, c: Cmd<Span>, d: Cmd<Span>)
    requires AllWords(line, c) && AllWords(line, d)
    ensures AllWords(line, Pipe(c, d)) && Tree(line, Pipe(c, d)) == Pipe(Tree(line, c), Tree(line, d))
    ensures AllWords(line, List(c, d)) && Tree(line, List(c, d)) == List(Tree(line, c), Tree(line, d))
  {
  }

  lemma TreeExec(line: string, ws: seq<Span>)
    ensures Tree(line, Exec(ws)) == Exec(Texts(line, ws))
  {
  }

  lemma {:induction false} LexSkip(line: string, p: nat, s: nat)
    requires p <= s <= |line| && forall i :: p <= i < s ==> Space(line[i])
    ensures Lex(line[s..]) == Lex(line[p..])
  {
    hide Lex, Space;
    assert forall i :: 0 <= i < s - p ==> line[p..][i] == line[p + i];
    SkipMore(line[p..], s - p);
    assert line[p..][s - p..] == line[s..];
  }

  lemma {:induction false} LexAt(line: string, p: nat, s: nat)
    requires p <= s <= |line| && (forall i :: p <= i < s ==> Space(line[i])) && (s < |line| ==> !Space(line[s]))
    ensures Lex(line[p..]) == if s == |line| then [] else [HeadTok(line[s..])] + Lex(line[s + HeadLen(line[s..])..])
  {
    hide Lex, HeadTok, HeadLen, Space;
    LexSkip(line, p, s);
    if s < |line| {
      LexHead(line[s..]);
      assert line[s..][HeadLen(line[s..])..] == line[s + HeadLen(line[s..])..];
    } else {
      LexNothing();
      assert line[s..] == "";
    }
  }

  // ----- C strings -----

  /** `now` is `was` with a NUL written at the end of every span. */
  predicate Terminated(was: string, now: string, spans: set<Span>) {
    && |now| == |was|
    && (forall sp :: sp in spans ==> sp.eq < |now| && now[sp.eq] == NUL)
    && (forall i :: 0 <= i < |now| && now[i] != was[i] ==> exists sp :: sp in spans && sp.eq == i)
  }

  lemma TerminatedMore(was: string, mid: string, spans: set<Span>, sp: Span)
    requires Terminated(was, mid, spans) && sp.eq < |mid|
    ensures Terminated(was, mid[sp.eq := NUL], spans + {sp})
  {
    var now := mid[sp.eq := NUL];
    forall i | 0 <= i < |now| && now[i] != was[i] ensures exists x :: x in spans + {sp} && x.eq == i {
      if i == sp.eq {
        assert sp in spans + {sp};
      } else {
        var x :| x in spans && x.eq == i;
        assert x in spans + {sp};
      }
    }
  }

  lemma TerminatedTwice(was: string, mid: string, now: string, a: set<Span>, b: set<Span>)
    requires Terminated(was, mid, a) && Terminated(mid, now, b)
    ensures Terminated(was, now, a + b)
  {
    forall i | 0 <= i < |now| && now[i] != was[i] ensures exists x :: x in a + b && x.eq == i {
      if now[i] != mid[i] {
        var x :| x in b && x.eq == i;
        assert x in a + b;
      } else {
        var x :| x in a && x.eq == i;
        assert x in a + b;
      }
    }
  }

  /** The C string at `q` is `w`. */
  predicate IsCString(buf: string, q: nat, w: string) {
    q + |w| < |buf| && buf[q..q + |w|] == w && NoNul(w) && buf[q + |w|] == NUL
  }

  /** A word ends at a blank and holds none, so no NUL written falls inside another word. */
  lemma CStrings(was: string, now: string, es: nat, c: Cmd<Span>, sp: Span)
    requires es < |was| && NoNul(was[..es]) && AllWords(was[..es], c) && was[es] == NUL
    requires Terminated(was, now, Spans(c)) && sp in Spans(c)
    ensures IsCString(now, sp.q, Of(was[..es], sp))
  {
    hide Spans;
    assert IsWord(was[..es], sp);
    WordStays(was, now, es, Spans(c), sp);
    assert now[sp.q..sp.eq] == was[..es][sp.q..sp.eq];
  }

  lemma WordStays(was: string, now: string, es: nat, spans: set<Span>, sp: Span)
    requires es < |was| && Terminated(was, now, spans) && IsWord(was[..es], sp)
    requires forall x :: x in spans ==> IsWord(was[..es], x)
    ensures forall i :: sp.q <= i < sp.eq ==> now[i] == was[i]
  {
    assert forall x :: x in spans && x.eq < es ==> Space(was[x.eq]) by {
      assert forall x :: x in spans && x.eq < es ==> was[..es][x.eq] == was[x.eq];
    }
    forall i | sp.q <= i < sp.eq ensures now[i] == was[i] {
      assert was[..es][i] == was[i] && !Space(was[i]);
    }
  }

  lemma EmptyRest(line: string, p: nat)
    requires p < |line| && !Space(line[p])
    ensures Lex(line[p..]) != []
  {
    LexHead(line[p..]);
  }

  class Parser {
    const buf: array<char>
    const es: nat
    var ps: nat

    ghost predicate Valid()
      reads this, buf
    {
      es < buf.Length && buf[es] == NUL && NoNul(buf[..es]) && ps <= es
    }

    ghost function Line(): string
      reads this, buf
      requires Valid()
    {
      buf[..es]
    }

    /** The tokens still ahead of the cursor. */
    ghost function Rest(): seq<Tok>
      reads this, buf
      requires Valid()
    {
      Lex(buf[..es][ps..])
    }

    method SkipBlanks(p: nat) returns (s: nat)
      requires Valid() && p <= es
      ensures p <= s <= es && (forall i :: p <= i < s ==> Space(Line()[i])) && (s < es ==> !Space(Line()[s]))
    {
      s := p;
      while s < es && Space(buf[s])
        invariant p <= s <= es && forall i :: p <= i < s ==> Space(Line()[i])
      {
        s := s + 1;
      }
    }

    method WordEnd(p: nat) returns (s: nat)
      requires Valid() && p < es && !Space(buf[p])
      ensures s == p + WordLen(Line()[p..])
    {
      s := p;
      while s < es && !Space(buf[s])
        invariant p <= s <= es && forall i :: p <= i < s ==> !Space(Line()[i])
      {
        s := s + 1;
      }
      ghost var t := Line()[p..];
      assert WordLen(t) >= s - p;
      assert s < es ==> t[s - p] == Line()[s];
    }

    /** The token at `s`, its code and its end. */
    method Scan(s: nat) returns (ret: char, e: nat)
      requires Valid() && s <= es && (s < es ==> !Space(buf[s]))
      ensures s == es ==> ret == NUL && e == s
      ensures s < es ==> e == s + HeadLen(Line()[s..]) && ret == Code([HeadTok(Line()[s..])])
      ensures ret == 'a' ==> s < es && HeadTok(Line()[s..]) == Word(Of(Line(), Span(s, e)))
      ensures ret == 'a' ==> IsWord(Line(), Span(s, e))
    {
      e := s;
      ret := buf[s];
      if ret == NUL {
        assert s == es;
      } else if ret == '|' || ret == '(' || ret == ')' || ret == ';' || ret == '&' || ret == '<' {
        e := e + 1;
      } else if ret == '>' {
        e := e + 1;
        if buf[e] == '>' {
          ret := '+';
          e := e + 1;
        }
      } else {
        ret := 'a';
        e := WordEnd(s);
        ghost var t := Line()[s..];
        assert forall i :: s <= i < e ==> t[i - s] == Line()[i];
        assert t[..e - s] == Line()[s..e];
      }
    }

    method GetToken() returns (ret: char, sp: Span)
      requires Valid()
      modifies `ps
      ensures Valid() && ret == Code(old(Rest())) && old(ps) <= ps
      ensures old(Rest()) == [] ==> Rest() == []
      ensures old(Rest()) != [] ==> Rest() == old(Rest())[1..]
      ensures ret == 'a' ==> IsWord(Line(), sp) && old(Rest())[0] == Word(Of(Line(), sp))
    {
      hide Lex, HeadTok, HeadLen, IsWord, Of, Space;
      var s := SkipBlanks(ps);
      LexAt(Line(), ps, s);
      var e;
      ret, e := Scan(s);
      sp := Span(s, e);
      var p := SkipBlanks(e);
      LexSkip(Line(), e, p);
      if s == es {
        LexNothing();
        assert Line()[s..] == "";
      }
      ps := p;
    }

    /** Is the next character one of `toks`? */
    method Peek(toks: string) returns (b: bool)
      requires Valid() && forall i :: 0 <= i < |toks| ==> Symbol(toks[i])
      modifies `ps
      ensures Valid() && Rest() == old(Rest()) && old(ps) <= ps
      ensures b <==> Rest() != [] && !Rest()[0].Word? && Lead(Rest()[0]) in toks
      ensures ps < es ==> !Space(Line()[ps])
    {
      hide Lex;
      var s := SkipBlanks(ps);
      LexAt(Line(), ps, s);
      LexSkip(Line(), ps, s);
      ps := s;
      b := buf[s] != NUL && buf[s] in toks;
    }

    // ----- the descent -----

    method ParseRedirs(rds: seq<Rd<Span>>) returns (ok: bool, more: seq<Rd<Span>>)
      requires Valid() && RdWords(Line(), rds)
      modifies `ps
      ensures Valid() && |Rest()| <= old(|Rest()|)
      ensures ok <==> G.ParseRedirs(RdTexts(Line(), rds), old(Rest())).Ok?
      ensures ok ==> RdWords(Line(), more)
      ensures ok ==> G.ParseRedirs(RdTexts(Line(), rds), old(Rest())) == Ok(RdTexts(Line(), more), Rest())
    {
      hide Lex, IsWord, Of, RdTexts, RdWords;
      more := rds;
      var again := Peek("<>");
      while again
        invariant Valid() && RdWords(Line(), more) && |Rest()| <= old(|Rest()|)
        invariant again <==> Rest() != [] && Rest()[0].To?
        invariant G.ParseRedirs(RdTexts(Line(), more), Rest()) == G.ParseRedirs(RdTexts(Line(), rds), old(Rest()))
        decreases |Rest()|
      {
        var tok, none := GetToken();
        var word, sp := GetToken();
        if word != 'a' {
          return false, more;
        }
        var kind := if tok == '<' then Read else if tok == '>' then Truncate else Append;
        RdsMore(Line(), more, kind, sp);
        more := more + [Rd(kind, sp)];
        again := Peek("<>");
      }
      ok := true;
    }

    /** The loop over the words of a simple command. */
    method ParseArgs(first: seq<Rd<Span>>) returns (r: Outcome)
      requires Valid() && RdWords(Line(), first)
      modifies `ps
      ensures Valid() && Agrees(Line(), G.ParseArgs([], RdTexts(Line(), first), old(Rest())), r, Rest())
    {
      hide Lex, IsWord, Of, RdTexts, RdWords, Texts, AllWords, Tree, Wrapped;
      var argv: seq<Span>, rds := [], first;
      NoWords(Line());
      var stop := Peek("|)&;");
      while !stop
        invariant Valid() && AllWords(Line(), Exec(argv)) && RdWords(Line(), rds) && |argv| < MAXARGS
        invariant stop <==> Rest() != [] && Stops(Rest())
        invariant G.ParseArgs(Texts(Line(), argv), RdTexts(Line(), rds), Rest())
                  == G.ParseArgs([], RdTexts(Line(), first), old(Rest()))
        decreases !stop, |Rest()|
      {
        var tok, sp := GetToken();
        if tok == NUL {
          break;
        }
        if tok != 'a' {
          return Died;
        }
        WordsMore(Line(), argv, sp);
        argv := argv + [sp];
        if |argv| >= MAXARGS {
          return Died;
        }
        var ok;
        ok, rds := ParseRedirs(rds);
        if !ok {
          return Died;
        }
        stop := Peek("|)&;");
      }
      TreeWrap(Line(), Exec(argv), rds);
      TreeExec(Line(), argv);
      r := Built(Wrapped(Exec(argv), rds));
    }

    method ParseExec() returns (r: Outcome)
      requires Valid()
      modifies `ps
      ensures Valid() && Agrees(Line(), G.ParseExec(old(Rest())), r, Rest())
      decreases |Rest()|, 1
    {
      hide Lex, IsWord, Of, RdTexts, RdWords, Texts, AllWords, Tree, Wrapped;
      var block := Peek("(");
      if block {
        r := ParseBlock();
        return;
      }
      NoWords(Line());
      var ok, rds := ParseRedirs([]);
      if !ok {
        return Died;
      }
      r := ParseArgs(rds);
    }

    method ParseBlock() returns (r: Outcome)
      requires Valid() && Starts(Rest(), Open)
      modifies `ps
      ensures Valid() && Agrees(Line(), G.ParseBlock(old(Rest())[1..]), r, Rest())
      decreases |Rest()|, 0
    {
      hide Lex, IsWord, Of, RdTexts, RdWords, Texts, AllWords, Tree, Wrapped;
      var tok, sp := GetToken();
      r := ParseLine();
      if r.Died? {
        return;
      }
      var close := Peek(")");
      if !close {
        return Died;
      }
      tok, sp := GetToken();
      NoWords(Line());
      var ok, rds := ParseRedirs([]);
      if !ok {
        return Died;
      }
      TreeWrap(Line(), r.cmd, rds);
      r := Built(Wrapped(r.cmd, rds));
    }

    method ParsePipe() returns (r: Outcome)
      requires Valid()
      modifies `ps
      ensures Valid() && Agrees(Line(), G.ParsePipe(old(Rest())), r, Rest())
      decreases |Rest()|, 2
    {
      hide Lex, IsWord, Of, AllWords, Tree;
      r := ParseExec();
      if r.Died? {
        return;
      }
      var bar := Peek("|");
      if bar {
        var tok, sp := GetToken();
        var d := ParsePipe();
        if d.Died? {
          return d;
        }
        TreeJoin(Line(), r.cmd, d.cmd);
        r := Built(Pipe(r.cmd, d.cmd));
      }
    }

    /** The loop over trailing `&`s. */
    method Ampersands(first: Cmd<Span>) returns (c: Cmd<Span>)
      requires Valid() && AllWords(Line(), first)
      modifies `ps
      ensures Valid() && AllWords(Line(), c)
      ensures G.Amps(Tree(Line(), first), old(Rest())) == Ok(Tree(Line(), c), Rest())
    {
      hide Lex, IsWord, Of, AllWords, Tree;
      c := first;
      var amp := Peek("&");
      while amp
        invariant Valid() && AllWords(Line(), c)
        invariant amp <==> Starts(Rest(), Amp)
        invariant G.Amps(Tree(Line(), c), Rest()) == G.Amps(Tree(Line(), first), old(Rest()))
        decreases |Rest()|
      {
        var tok, sp := GetToken();
        TreeBack(Line(), c);
        c := Back(c);
        amp := Peek("&");
      }
    }

    method ParseLine() returns (r: Outcome)
      requires Valid()
      modifies `ps
      ensures Valid() && Agrees(Line(), G.ParseLine(old(Rest())), r, Rest())
      decreases |Rest()|, 3
    {
      hide Lex, IsWord, Of, AllWords, Tree;
      r := ParsePipe();
      if r.Died? {
        return;
      }
      var c := Ampersands(r.cmd);
      r := Built(c);
      var semi := Peek(";");
      if semi {
        var tok, sp := GetToken();
        var d := ParseLine();
        if d.Died? {
          return d;
        }
        TreeJoin(Line(), c, d.cmd);
        r := Built(List(c, d.cmd));
      }
    }

    // ----- nulterminate -----

    /** Write a NUL after every word of the tree. */
    method NulTerminate(c: Cmd<Span>)
      requires forall sp :: sp in Spans(c) ==> sp.eq < buf.Length
      modifies buf
      ensures Terminated(old(buf[..]), buf[..], Spans(c))
      decreases c
    {
      match c
      case Exec(ws) =>
        for i := 0 to |ws|
          invariant Terminated(old(buf[..]), buf[..], SpanSet(ws[..i]))
        {
          assert ws[i] in Spans(c);
          assert ws[..i + 1] == ws[..i] + [ws[i]];
          ghost var mid := buf[..];
          buf[ws[i].eq] := NUL;
          TerminatedMore(old(buf[..]), mid, SpanSet(ws[..i]), ws[i]);
          assert SpanSet(ws[..i + 1]) == SpanSet(ws[..i]) + {ws[i]};
        }
        assert ws[..|ws|] == ws;
      case Redir(d, k, f) =>
        NulTerminate(d);
        ghost var mid := buf[..];
        buf[f.eq] := NUL;
        TerminatedMore(old(buf[..]), mid, Spans(d), f);
      case Pipe(l, r) =>
        NulTerminate(l);
        ghost var mid := buf[..];
        NulTerminate(r);
        TerminatedTwice(old(buf[..]), mid, buf[..], Spans(l), Spans(r));
      case List(l, r) =>
        NulTerminate(l);
        ghost var mid := buf[..];
        NulTerminate(r);
        TerminatedTwice(old(buf[..]), mid, buf[..], Spans(l), Spans(r));
      case Back(d) =>
        NulTerminate(d);
    }

    /** Parse the whole buffer. */
    method ParseCmd() returns (r: Outcome)
      requires Valid() && ps == 0
      modifies `ps, buf
      ensures G.ParseAll(Lex(old(Line()))) == Panic ==> r == Died
      ensures G.ParseAll(Lex(old(Line()))).Ok? ==>
                r.Built? && Tree(old(Line()), r.cmd) == G.ParseAll(Lex(old(Line()))).value
      ensures r.Built? ==> forall sp :: sp in Spans(r.cmd) ==> IsCString(buf[..], sp.q, Of(old(Line()), sp))
    {
      hide Lex, G.ParseLine, Tree, IsCString;
      ghost var line := Line();
      assert line[0..] == line;
      r := ParseLine();
      if r.Died? {
        return;
      }
      var b := Peek("");
      if ps != es {
        EmptyRest(line, ps);
        return Died;
      }
      assert line[ps..] == "";
      LexNothing();
      ghost var was := buf[..];
      forall sp | sp in Spans(r.cmd) ensures sp.eq < buf.Length {
        assert IsWord(line, sp);
      }
      NulTerminate(r.cmd);
      forall sp | sp in Spans(r.cmd) ensures IsCString(buf[..], sp.q, Of(line, sp)) {
        CStrings(was, buf[..], es, r.cmd, sp);
      }
    }
  }
}
