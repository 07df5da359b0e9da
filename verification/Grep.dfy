/**
 The pattern matcher of grep against a reading of patterns as divisions of the text, and
 the line loop against the lines of its input, however `read` cuts that input up.
 */
module Grep {
  import opened Collections

  const NEWLINE: char := '\n'
  const BUFSIZE := 1024

  // ----- what a pattern says -----

  /** A pattern is a row of items: a character, a starred character, the end of the text. */
  datatype Item = One(c: char) | Star(c: char) | End

  function Items(re: string): seq<Item>
    decreases |re|
  {
    if re == [] then []
    else if |re| > 1 && re[1] == '*' then [Star(re[0])] + Items(re[2..])
    else if re == "$" then [End]
    else [One(re[0])] + Items(re[1..])
  }

  predicate Hits(c: char, x: char) {
    c == '.' || c == x
  }

  /** The stretch `from .. to` of the text suits the item. */
  predicate Suits(it: Item, text: string, from: nat, to: nat)
    requires from <= to <= |text|
  {
    match it
    case One(c) => to == from + 1 && Hits(c, text[from])
    case Star(c) => forall i :: from <= i < to ==> Hits(c, text[i])
    case End => to == from == |text|
  }

  /** Item `i` suits the stretch that `cut` gives it. */
  predicate Piece(its: seq<Item>, text: string, cut: seq<nat>, i: nat) {
    i < |its| && i + 1 < |cut| && cut[i] <= cut[i + 1] <= |text| && Suits(its[i], text, cut[i], cut[i + 1])
  }

  /** `cut` divides a stretch of the text, from `from` on, among the items in turn. */
  predicate Divides(its: seq<Item>, text: string, from: nat, cut: seq<nat>) {
    && |cut| == |its| + 1 && cut[0] == from <= |text|
    && forall i :: 0 <= i < |its| ==> Piece(its, text, cut, i)
  }

  /** The items match the text at `from`. */
  ghost predicate Meets(its: seq<Item>, text: string, from: nat) {
    exists cut :: Divides(its, text, from, cut)
  }

  /** The whole reading: at the start after a leading `^`, anywhere otherwise. */
  ghost predicate Matches(re: string, text: string) {
    if re != [] && re[0] == '^' then Meets(Items(re[1..]), text, 0)
    else exists from :: 0 <= from <= |text| && Meets(Items(re), text, from)
  }

  // ----- how readings compose -----

  lemma MeetsNothing(text: string, from: nat)
    requires from <= |text|
    ensures Meets([], text, from)
  {
    assert Divides([], text, from, [from]);
  }

  lemma MeetsSplit(it: Item, its: seq<Item>, text: string, from: nat)
    requires from <= |text| && Meets([it] + its, text, from)
    ensures exists to :: from <= to <= |text| && Suits(it, text, from, to) && Meets(its, text, to)
  {
    var all := [it] + its;
    var cut :| Divides(all, text, from, cut);
    assert Piece(all, text, cut, 0);
    forall i | 0 <= i < |its| ensures Piece(its, text, cut[1..], i) {
      assert Piece(all, text, cut, i + 1);
    }
    assert Divides(its, text, cut[1], cut[1..]);
  }

  lemma MeetsJoin(it: Item, its: seq<Item>, text: string, from: nat, to: nat)
    requires from <= to <= |text| && Suits(it, text, from, to) && Meets(its, text, to)
    ensures Meets([it] + its, text, from)
  {
    var all := [it] + its;
    var rest :| Divides(its, text, to, rest);
    var cut := [from] + rest;
    forall i | 0 <= i < |all| ensures Piece(all, text, cut, i) {
      if i > 0 {
        assert Piece(its, text, rest, i - 1);
      }
    }
    assert Divides(all, text, from, cut);
  }

  /** A starred item takes hits only, so what follows it starts no later than the first miss. */
  lemma MeetsStar(c: char, its: seq<Item>, text: string, from: nat, to: nat)
    requires from <= to <= |text| && (to == |text| || !Hits(c, text[to]))
    requires Meets([Star(c)] + its, text, from)
    ensures exists j :: from <= j <= to && Meets(its, text, j)
  {
    hide Meets;
    MeetsSplit(Star(c), its, text, from);
    var j :| from <= j <= |text| && Suits(Star(c), text, from, j) && Meets(its, text, j);
    assert j <= to;
  }

  lemma MeetsOne(c: char, its: seq<Item>, text: string, from: nat)
    requires from <= |text|
    ensures Meets([One(c)] + its, text, from) <==> from < |text| && Hits(c, text[from]) && Meets(its, text, from + 1)
  {
    if Meets([One(c)] + its, text, from) {
      MeetsSplit(One(c), its, text, from);
    }
    if from < |text| && Hits(c, text[from]) && Meets(its, text, from + 1) {
      MeetsJoin(One(c), its, text, from, from + 1);
    }
  }

  lemma MeetsEnd(text: string, from: nat)
    requires from <= |text|
    ensures Meets([End], text, from) <==> from == |text|
  {
    if from == |text| {
      MeetsNothing(text, from);
      MeetsJoin(End, [], text, from, from);
      assert [End] + [] == [End];
    }
    if Meets([End], text, from) {
      assert [End] + [] == [End];
      MeetsSplit(End, [], text, from);
    }
  }

  // ----- the matcher -----

  method MatchHere(re: string, text: string, at: nat) returns (b: bool)
    requires at <= |text|
    ensures b <==> Meets(Items(re), text, at)
    decreases |re|, 1
  {
    hide Meets;
    if re == [] {
      MeetsNothing(text, at);
      return true;
    }
    if |re| > 1 && re[1] == '*' {
      b := MatchStar(re[0], re[2..], text, at);
      return;
    }
    if re == "$" {
      MeetsEnd(text, at);
      return at == |text|;
    }
    MeetsOne(re[0], Items(re[1..]), text, at);
    if at < |text| && (re[0] == '.' || re[0] == text[at]) {
      b := MatchHere(re[1..], text, at + 1);
      return;
    }
    return false;
  }

  method MatchStar(c: char, re: string, text: string, at: nat) returns (b: bool)
    requires at <= |text|
    ensures b <==> Meets([Star(c)] + Items(re), text, at)
    decreases |re|, 2
  {
    hide Meets;
    var k := at;
    while true
      invariant at <= k <= |text| && (forall j :: at <= j < k ==> Hits(c, text[j]))
      invariant forall j :: at <= j < k ==> !Meets(Items(re), text, j)
      decreases |text| - k
    {
      var here := MatchHere(re, text, k);
      if here {
        MeetsJoin(Star(c), Items(re), text, at, k);
        return true;
      }
      if k < |text| && (text[k] == c || c == '.') {
        k := k + 1;
      } else {
        if Meets([Star(c)] + Items(re), text, at) {
          MeetsStar(c, Items(re), text, at, k);
        }
        return false;
      }
    }
  }

  method Match(re: string, text: string) returns (b: bool)
    ensures b <==> Matches(re, text)
  {
    hide Meets;
    if re != [] && re[0] == '^' {
      b := MatchHere(re[1..], text, 0);
      return;
    }
    var k := 0;
    while true
      invariant 0 <= k <= |text| && forall j :: 0 <= j < k ==> !Meets(Items(re), text, j)
      decreases |text| - k
    {
      b := MatchHere(re, text, k);
      if b || k == |text| {
        return;
      }
      k := k + 1;
    }
  }

  // ----- the line loop -----

  /** The length of the line at the front of `s`, without its newline; `|s|` when there is none. */
  function LineLen(s: string): (k: nat)
    ensures k <= |s| && (forall i :: 0 <= i < k ==> s[i] != NEWLINE) && (k < |s| ==> s[k] == NEWLINE)
  {
    if s == [] || s[0] == NEWLINE then 0 else 1 + LineLen(s[1..])
  }

  /**
   What grep prints for input `s`: its newline-terminated lines that match, up to the first
   line too long for the buffer.
   */
  ghost function Printed(re: string, s: string): string
    decreases |s|
  {
    var k := LineLen(s);
    if k == |s| || k >= BUFSIZE - 1 then ""
    else (if Matches(re, s[..k]) then s[..k + 1] else "") + Printed(re, s[k + 1..])
  }

  /** For input of lines that fit, that is every terminated line that matches. */
  ghost function Matching(re: string, lines: seq<string>): string {
    if lines == [] then ""
    else (if Matches(re, lines[0]) then lines[0] + [NEWLINE] else "") + Matching(re, lines[1..])
  }

  function Unlines(lines: seq<string>): string {
    if lines == [] then "" else lines[0] + [NEWLINE] + Unlines(lines[1..])
  }

  lemma {:induction false} PrintedLines(re: string, lines: seq<string>, last: string)
    requires forall i :: 0 <= i < |lines| ==> NEWLINE !in lines[i] && |lines[i]| < BUFSIZE - 1
    requires NEWLINE !in last
    ensures Printed(re, Unlines(lines) + last) == Matching(re, lines)
    decreases |lines|
  {
    hide Printed, Matches;
    if lines == [] {
      assert Unlines(lines) + last == last;
      NoLine(last, |last|);
    } else {
      var rest := Unlines(lines[1..]) + last;
      assert Unlines(lines) + last == lines[0] + [NEWLINE] + rest;
      FirstLine(re, lines[0], rest);
      PrintedLines(re, lines[1..], last);
    }
  }

  lemma FirstLine(re: string, line: string, rest: string)
    requires NEWLINE !in line && |line| < BUFSIZE - 1
    ensures Printed(re, line + [NEWLINE] + rest)
            == (if Matches(re, line) then line + [NEWLINE] else "") + Printed(re, rest)
  {
    hide Matches, LineLen;
    var t := line + [NEWLINE] + rest;
    LineLenIs(t, |line|);
    assert t[..|line|] == line;
    assert t[..|line| + 1] == line + [NEWLINE];
    assert t[|line| + 1..] == rest;
  }

  lemma LineLenIs(s: string, k: nat)
    requires k < |s| && (forall i :: 0 <= i < k ==> s[i] != NEWLINE) && s[k] == NEWLINE
    ensures LineLen(s) == k
  {
  }

  lemma NoLine(s: string, n: nat)
    requires n <= |s| && (forall i :: 0 <= i < n ==> s[i] != NEWLINE) && (n == |s| || n >= BUFSIZE - 1)
    ensures forall re :: Printed(re, s) == ""
  {
  }

  /** Any number of bytes, at least one while there are some and there is room. */
  method Read(left: nat, room: nat) returns (n: nat)
    ensures n <= left && n <= room && (n == 0 <==> left == 0 || room == 0)
  {
    var most := if left < room then left else room;
    n :| n <= most && (n == 0 <==> most == 0);
  }

  /** `strchr` for a newline. */
  method FindNewline(buf: array<char>, p: nat, m: nat) returns (q: nat, found: bool)
    requires p <= m < buf.Length && buf[m] == NUL && forall i :: p <= i < m ==> buf[i] != NUL
    ensures p <= q <= m && (forall i :: p <= i < q ==> buf[i] != NEWLINE)
    ensures found <==> q < m
    ensures found ==> buf[q] == NEWLINE
    ensures !found ==> q == m
  {
    q := p;
    while buf[q] != NUL && buf[q] != NEWLINE
      invariant p <= q <= m && forall i :: p <= i < q ==> buf[i] != NEWLINE
      decreases m - q
    {
      q := q + 1;
    }
    found := buf[q] == NEWLINE;
  }

  /** One line of the buffer, as printed; its newline stays a NUL unless it matched. */
  method PrintLine(re: string, buf: array<char>, p: nat, q: nat) returns (piece: string)
    requires p <= q < buf.Length && buf[q] == NEWLINE
    modifies buf
    ensures piece == if Matches(re, old(buf[p..q])) then old(buf[p..q + 1]) else ""
    ensures forall i :: 0 <= i < buf.Length && i != q ==> buf[i] == old(buf[i])
  {
    hide Matches;
    buf[q] := NUL;
    assert buf[p..q] == old(buf[p..q]);
    var b := Match(re, buf[p..q]);
    piece := "";
    if b {
      buf[q] := NEWLINE;
      piece := buf[p..q + 1];
    }
  }

  /** The lines in the buffer: printed, or not, and passed. */
  method Lines(re: string, buf: array<char>, m: nat, ghost rest: string) returns (p: nat, out: string)
    requires m < buf.Length <= BUFSIZE && buf[m] == NUL && forall i :: 0 <= i < m ==> buf[i] != NUL
    modifies buf
    ensures p <= m && buf[p..m] == old(buf[..m])[p..] && NEWLINE !in buf[p..m]
    ensures out + Printed(re, old(buf[..m])[p..] + rest) == Printed(re, old(buf[..m]) + rest)
  {
    hide Printed, Matches;
    ghost var s := buf[..m];
    p, out := 0, "";
    assert s[0..] == s;
    var q, found := FindNewline(buf, 0, m);
    while found
      invariant 0 <= p <= q <= m && buf[m] == NUL && (found <==> q < m) && (found ==> buf[q] == NEWLINE)
      invariant forall i :: p <= i < q ==> buf[i] != NEWLINE
      invariant forall i :: p <= i < m ==> buf[i] == s[i] && s[i] != NUL
      invariant out + Printed(re, s[p..] + rest) == Printed(re, s + rest)
      decreases m - p, found
    {
      OneLine(re, s, rest, p, q);
      assert buf[p..q] == s[p..q] && buf[p..q + 1] == s[p..q + 1];
      var piece := PrintLine(re, buf, p, q);
      out := out + piece;
      p := q + 1;
      q, found := FindNewline(buf, p, m);
    }
    assert buf[p..m] == s[p..];
  }

  /** A line short enough for the buffer is printed as it matches. */
  lemma OneLine(re: string, s: string, rest: string, p: nat, q: nat)
    requires p <= q < |s| < BUFSIZE && (forall i :: p <= i < q ==> s[i] != NEWLINE) && s[q] == NEWLINE
    ensures Printed(re, s[p..] + rest)
            == (if Matches(re, s[p..q]) then s[p..q + 1] else "") + Printed(re, s[q + 1..] + rest)
  {
    hide Matches, Printed;
    assert s[p..] + rest == s[p..q] + [NEWLINE] + (s[q + 1..] + rest);
    assert s[p..q + 1] == s[p..q] + [NEWLINE];
    FirstLine(re, s[p..q], s[q + 1..] + rest);
  }

  /** One turn of the loop: `chunk` comes in, whole lines go out, the rest moves to the front. */
  method Turn(re: string, buf: array<char>, m: nat, chunk: string, ghost rest: string) returns (k: nat, out: string)
    requires m + |chunk| < buf.Length == BUFSIZE && NoNul(buf[..m]) && NoNul(chunk)
    modifies buf
    ensures k <= m + |chunk| && NoNul(buf[..k]) && NEWLINE !in buf[..k]
    ensures out + Printed(re, buf[..k] + rest) == Printed(re, old(buf[..m]) + chunk + rest)
  {
    hide Printed;
    Fill(buf, m, chunk);
    var n := m + |chunk|;
    ghost var all := buf[..n];
    buf[n] := NUL;
    assert buf[..n] == all;
    var p;
    p, out := Lines(re, buf, n, rest);
    Shift(buf, p, n);
    k := n - p;
    assert buf[..k] == all[p..];
  }

  /** Print the matching lines of `input`, whatever sizes `Read` returns. */
  method Run(re: string, input: string) returns (out: string)
    requires NoNul(input)
    ensures out == Printed(re, input)
  {
    hide Printed;
    var buf := new char[BUFSIZE](_ => NUL);
    var m, at := 0, 0;
    out := "";
    assert buf[..m] + input[at..] == input;
    var n := Read(|input|, BUFSIZE - 1);
    while n > 0
      invariant 0 <= m < BUFSIZE && at <= |input| && m + n < BUFSIZE && at + n <= |input|
      invariant n == 0 <==> at == |input| || m == BUFSIZE - 1
      invariant NoNul(buf[..m]) && NEWLINE !in buf[..m]
      invariant out + Printed(re, buf[..m] + input[at..]) == Printed(re, input)
      decreases |input| - at
    {
      assert buf[..m] + input[at..at + n] + input[at + n..] == buf[..m] + input[at..];
      var more;
      m, more := Turn(re, buf, m, input[at..at + n], input[at + n..]);
      out := out + more;
      at := at + n;
      n := Read(|input| - at, BUFSIZE - m - 1);
    }
    NoLine(buf[..m] + input[at..], m);
  }

  method Fill(buf: array<char>, m: nat, chunk: string)
    requires m + |chunk| <= buf.Length
    modifies buf
    ensures buf[..m + |chunk|] == old(buf[..m]) + chunk
  {
    for i := 0 to |chunk|
      invariant buf[..m + i] == old(buf[..m]) + chunk[..i]
    {
      buf[m + i] := chunk[i];
    }
  }

  /** `memmove` of `p .. m` to the front. */
  method Shift(buf: array<char>, p: nat, m: nat)
    requires p <= m <= buf.Length
    modifies buf
    ensures buf[..m - p] == old(buf[p..m])
  {
    for i := 0 to m - p
      invariant buf[..i] == old(buf[p..p + i])
      invariant forall j :: p + i <= j < m ==> buf[j] == old(buf[j])
    {
      buf[i] := buf[p + i];
    }
  }
}
