/**
 The shell's tokens: how a line is cut into them, and how tokens are spelled.  A word runs
 to the next blank, through any symbols on the way: only a word's first character counts.
 */
module ShellLexer {
  import opened Collections
  import opened ShellGrammar

  predicate Space(c: char) {
    c == ' ' || c == '\t' || c == '\r' || c == '\n' || c == '\U{B}'
  }

  predicate Symbol(c: char) {
    c == '<' || c == '|' || c == '>' || c == '&' || c == ';' || c == '(' || c == ')'
  }

  /** Blanks at the front of `s`. */
  function Skip(s: string): (k: nat)
    ensures k <= |s| && (forall i :: 0 <= i < k ==> Space(s[i])) && (k < |s| ==> !Space(s[k]))
  {
    if s == [] || !Space(s[0]) then 0 else 1 + Skip(s[1..])
  }

  /** Characters up to the first blank. */
  function WordLen(s: string): (k: nat)
    ensures k <= |s| && (forall i :: 0 <= i < k ==> !Space(s[i])) && (k < |s| ==> Space(s[k]))
  {
    if s == [] || Space(s[0]) then 0 else 1 + WordLen(s[1..])
  }

  /** The token at the front of `s`, and its length. */
  function HeadLen(s: string): (k: nat)
    requires s != [] && !Space(s[0])
    ensures 0 < k <= |s|
  {
    if s[0] == '>' then if |s| > 1 && s[1] == '>' then 2 else 1
    else if Symbol(s[0]) then 1
    else WordLen(s)
  }

  function HeadTok(s: string): (t: Tok)
    requires s != [] && !Space(s[0])
    ensures t.Word? ==> !Symbol(s[0]) && t.text == s[..HeadLen(s)]
    ensures !t.Word? ==> Symbol(s[0])
  {
    match s[0]
    case '|' => Bar
    case '(' => Open
    case ')' => Close
    case ';' => Semi
    case '&' => Amp
    case '<' => To(Read)
    case '>' => To(if HeadLen(s) == 2 then Append else Truncate)
    case _ => Word(s[..WordLen(s)])
  }

  function Lex(s: string): seq<Tok>
    decreases |s|, 1
  {
    LexRest(s[Skip(s)..])
  }

  /** From a character that is no blank. */
  function LexRest(t: string): seq<Tok>
    requires t == [] || !Space(t[0])
    decreases |t|, 0
  {
    if t == [] then [] else [HeadTok(t)] + Lex(t[HeadLen(t)..])
  }

  lemma {:induction false} SkipAdd(s: string, k: nat)
    requires k <= |s| && forall i :: 0 <= i < k ==> Space(s[i])
    ensures Skip(s) == k + Skip(s[k..])
  {
    var a, b := Skip(s), Skip(s[k..]);
    assert a >= k;
    assert k + b < |s| ==> !Space(s[k + b]);
  }

  lemma {:induction false} SkipMore(s: string, k: nat)
    requires k <= |s| && forall i :: 0 <= i < k ==> Space(s[i])
    ensures Lex(s) == Lex(s[k..])
  {
    hide Skip, LexRest;
    SkipAdd(s, k);
    assert s[Skip(s)..] == s[k..][Skip(s[k..])..];
  }

  /** Text without blanks is one word, whatever symbols it holds, unless a symbol comes first. */
  lemma OneWord(s: string)
    requires s != [] && forall i :: 0 <= i < |s| ==> !Space(s[i])
    ensures Lex(s) == [Word(s)] <==> !Symbol(s[0])
  {
    assert Skip(s) == 0 && s[0..] == s;
    assert WordLen(s) == |s| && s[..|s|] == s;
    assert Lex(s) == [HeadTok(s)] + Lex(s[HeadLen(s)..]);
    if Symbol(s[0]) {
      assert Lex(s)[0] == HeadTok(s) && !HeadTok(s).Word?;
    } else {
      assert HeadLen(s) == |s| && HeadTok(s) == Word(s) && s[|s|..] == "";
      assert Lex("") == [];
    }
  }

  /** So `a;b` is not two commands but a word. */
  lemma SemicolonInWord()
    ensures Lex("a;b") == [Word("a;b")]
  {
    OneWord("a;b");
  }

  // ----- spelling -----

  function Text(t: Tok): string {
    match t
    case Bar => "|"
    case Open => "("
    case Close => ")"
    case Semi => ";"
    case Amp => "&"
    case To(Read) => "<"
    case To(Truncate) => ">"
    case To(Append) => ">>"
    case Word(w) => w
  }

  /** Words the shell can read back: no blank, no NUL, not starting with a symbol. */
  predicate GoodWord(w: string) {
    && w != [] && !Symbol(w[0])
    && forall i :: 0 <= i < |w| ==> !Space(w[i]) && w[i] != NUL
  }

  predicate GoodToks(ts: seq<Tok>) {
    forall i :: 0 <= i < |ts| && ts[i].Word? ==> GoodWord(ts[i].text)
  }

  /** Each token followed by a blank. */
  function Spell(ts: seq<Tok>): string {
    if ts == [] then "" else Text(ts[0]) + " " + Spell(ts[1..])
  }

  lemma WordLenIs(s: string, n: nat)
    requires n < |s| && (forall i :: 0 <= i < n ==> !Space(s[i])) && Space(s[n])
    ensures WordLen(s) == n
  {
    if WordLen(s) < n {
      assert Space(s[WordLen(s)]);
    }
  }

  lemma HeadSpelled(t: Tok, rest: string)
    requires t.Word? ==> GoodWord(t.text)
    ensures var s := Text(t) + " " + rest;
            !Space(s[0]) && HeadLen(s) == |Text(t)| && HeadTok(s) == t
  {
    var s := Text(t) + " " + rest;
    if t.Word? {
      assert s[0] == t.text[0];
      assert forall i :: 0 <= i < |t.text| ==> s[i] == t.text[i];
      WordLenIs(s, |t.text|);
      assert s[..|t.text|] == t.text;
    }
  }

  lemma LexHead(s: string)
    requires s != [] && !Space(s[0])
    ensures Lex(s) == [HeadTok(s)] + Lex(s[HeadLen(s)..])
  {
    assert Skip(s) == 0 && s[0..] == s;
  }

  lemma LexOne(t: Tok, rest: string)
    requires t.Word? ==> GoodWord(t.text)
    ensures Lex(Text(t) + " " + rest) == [t] + Lex(rest)
  {
    hide Lex, Text, GoodWord;
    var s := Text(t) + " " + rest;
    HeadSpelled(t, rest);
    LexHead(s);
    assert s[|Text(t)|..] == " " + rest;
    SkipMore(" " + rest, 1);
    assert (" " + rest)[1..] == rest;
  }

  lemma {:induction false} LexSpell(ts: seq<Tok>)
    requires GoodToks(ts)
    ensures Lex(Spell(ts)) == ts
    decreases |ts|
  {
    hide Lex, Text, GoodWord;
    if ts == [] {
      LexNothing();
    } else {
      assert GoodToks(ts[1..]);
      LexSpell(ts[1..]);
      LexOne(ts[0], Spell(ts[1..]));
    }
  }

  lemma LexNothing()
    ensures Lex("") == []
  {
  }

  lemma {:induction false} SpellNoNul(ts: seq<Tok>)
    requires GoodToks(ts)
    ensures NoNul(Spell(ts))
    decreases |ts|
  {
    if ts != [] {
      assert GoodToks(ts[1..]);
      SpellNoNul(ts[1..]);
      assert NoNul(Text(ts[0])) by {
        if ts[0].Word? {
          assert GoodWord(ts[0].text);
        }
      }
    }
  }

  predicate GoodWords(t: Cmd<string>) {
    match t
    case Exec(ws) => forall i :: 0 <= i < |ws| ==> GoodWord(ws[i])
    case Redir(c, k, f) => GoodWords(c) && GoodWord(f)
    case Pipe(l, r) => GoodWords(l) && GoodWords(r)
    case List(l, r) => GoodWords(l) && GoodWords(r)
    case Back(c) => GoodWords(c)
  }

  lemma {:induction false} GoodWordToks(ws: seq<string>)
    requires forall i :: 0 <= i < |ws| ==> GoodWord(ws[i])
    ensures GoodToks(Words(ws))
  {
    if ws != [] {
      GoodWordToks(ws[1..]);
    }
  }

  lemma {:induction false} GoodPrint(t: Cmd<string>)
    requires GoodWords(t)
    ensures GoodToks(PrintExec(t)) && GoodToks(PrintPipe(t)) && GoodToks(PrintLeft(t)) && GoodToks(PrintLine(t))
  {
    match t
    case Exec(ws) => GoodWordToks(ws);
    case Redir(c, k, f) => GoodPrint(c);
    case Pipe(l, r) =>
      GoodPrint(l);
      GoodPrint(r);
    case List(l, r) =>
      GoodPrint(l);
      GoodPrint(r);
    case Back(c) => GoodPrint(c);
  }

  function Print(t: Cmd<string>): string {
    Spell(PrintLine(t))
  }

  /** Cutting and parsing the printed line gives the command back. */
  lemma RoundTrip(t: Cmd<string>)
    requires Fits(t) && GoodWords(t)
    ensures NoNul(Print(t)) && ParseAll(Lex(Print(t))) == Ok(t, [])
  {
    GoodPrint(t);
    LexSpell(PrintLine(t));
    SpellNoNul(PrintLine(t));
    ParsePrint(t);
  }

  // ----- the lexer against a declarative reading -----

  predicate Blank(s: string) {
    forall i :: 0 <= i < |s| ==> Space(s[i])
  }

  /** A word: some characters, none of them blank, the first no symbol. */
  predicate IsWordText(w: string) {
    w != [] && !Symbol(w[0]) && forall i :: 0 <= i < |w| ==> !Space(w[i])
  }

  /** Token `t` stands at `k`: a word up to a blank or the end, a lone `>` only where no other follows. */
  predicate SpeltAt(s: string, k: nat, t: Tok)
    requires k + |Text(t)| <= |s|
  {
    var end := k + |Text(t)|;
    && s[k..end] == Text(t)
    && (t.Word? ==> IsWordText(t.text) && (end == |s| || Space(s[end])))
    && (t == To(Truncate) && end < |s| ==> s[end] != '>')
  }

  /** `s` is the tokens in order, with any blanks before, between and after them. */
  ghost predicate Spells(s: string, ts: seq<Tok>)
    decreases |ts|
  {
    if ts == [] then Blank(s)
    else
      exists k: nat ::
        && k + |Text(ts[0])| <= |s| && Blank(s[..k]) && SpeltAt(s, k, ts[0])
        && Spells(s[k + |Text(ts[0])|..], ts[1..])
  }

  lemma HeadSpelt(s: string)
    requires s != [] && !Space(s[0])
    ensures Text(HeadTok(s)) == s[..HeadLen(s)] && SpeltAt(s, 0, HeadTok(s))
  {
    if !Symbol(s[0]) {
      assert HeadTok(s) == Word(s[..WordLen(s)]);
    }
  }

  lemma SpeltHead(s: string, t: Tok)
    requires |Text(t)| <= |s| && SpeltAt(s, 0, t)
    ensures s != [] && !Space(s[0]) && HeadTok(s) == t && HeadLen(s) == |Text(t)|
  {
    assert s[..|Text(t)|] == Text(t) && Text(t) != [];
    assert s[0] == Text(t)[0];
    if t.Word? {
      assert forall i :: 0 <= i < |t.text| ==> s[i] == t.text[i];
      WordEnds(s, |t.text|);
    } else if t.To? && t.kind == Append {
      assert s[1] == Text(t)[1];
    }
  }

  lemma WordEnds(s: string, n: nat)
    requires n <= |s| && (forall i :: 0 <= i < n ==> !Space(s[i])) && (n == |s| || Space(s[n]))
    ensures WordLen(s) == n
  {
    assert WordLen(s) >= n;
  }

  /** One token off the front. */
  lemma LexFront(s: string, k: nat)
    requires Skip(s) == k
    ensures Lex(s) == if k == |s| then [] else [HeadTok(s[k..])] + Lex(s[k + HeadLen(s[k..])..])
  {
    hide Skip, HeadTok, HeadLen;
    if k < |s| {
      var t := s[k..];
      assert t[HeadLen(t)..] == s[k + HeadLen(t)..];
    }
  }

  lemma {:induction false} LexSpells(s: string)
    ensures Spells(s, Lex(s))
    decreases |s|
  {
    hide Lex, HeadTok, HeadLen, Space, SpeltAt, Text;
    var k := Skip(s);
    LexFront(s, k);
    if k < |s| {
      var t := s[k..];
      var n := HeadLen(t);
      HeadSpelt(t);
      SpeltLater(s, k, HeadTok(t));
      LexSpells(s[k + n..]);
      assert ([HeadTok(t)] + Lex(s[k + n..]))[1..] == Lex(s[k + n..]);
      assert Blank(s[..k]);
    }
  }

  lemma SpeltLater(s: string, k: nat, t: Tok)
    requires k <= |s| && |Text(t)| <= |s| - k
    ensures SpeltAt(s, k, t) <==> SpeltAt(s[k..], 0, t)
  {
    hide Text;
    var n := |Text(t)|;
    assert s[k..][0..n] == s[k..k + n] && (k + n < |s| ==> s[k..][n] == s[k + n]);
  }

  lemma {:induction false} SpellsLex(s: string, ts: seq<Tok>)
    requires Spells(s, ts)
    ensures Lex(s) == ts
    decreases |ts|
  {
    hide Lex, HeadTok, HeadLen, Space, SpeltAt, Text, Skip, Blank;
    if ts == [] {
      SkipAll(s);
    } else {
      var k: nat :| k + |Text(ts[0])| <= |s| && Blank(s[..k]) && SpeltAt(s, k, ts[0])
                    && Spells(s[k + |Text(ts[0])|..], ts[1..]);
      SpeltLater(s, k, ts[0]);
      SpeltHead(s[k..], ts[0]);
      SkipIs(s, k);
      LexFront(s, k);
      SpellsLex(s[k + |Text(ts[0])|..], ts[1..]);
    }
  }

  lemma SkipAll(s: string)
    requires Blank(s)
    ensures Lex(s) == []
  {
    assert Skip(s) == |s|;
  }

  lemma SkipIs(s: string, k: nat)
    requires k < |s| && Blank(s[..k]) && !Space(s[k])
    ensures Skip(s) == k
  {
    forall i | 0 <= i < k ensures Space(s[i]) {
      assert s[..k][i] == s[i];
    }
  }

  /** A line is cut into exactly the tokens it spells. */
  lemma LexIff(s: string, ts: seq<Tok>)
    ensures Lex(s) == ts <==> Spells(s, ts)
  {
    LexSpells(s);
    if Spells(s, ts) {
      SpellsLex(s, ts);
    }
  }
}
