/** `convo_normalizer.rs`: chat exports turned into user/assistant exchanges. */
module Convo {
  import opened Common
  import opened Text

  datatype Exchange = Exchange(userText: string, assistantText: string, timestamp: Option<string>)

  // ---- plain text ----

  const MARKER := "> "

  predicate IsMarker(line: string) {
    MARKER <= line
  }

  /** Position of the first marker line, or the number of lines. */
  function NextMarker(lines: seq<string>): (k: nat)
    ensures k <= |lines|
    ensures forall i | 0 <= i < k :: !IsMarker(lines[i])
    ensures k < |lines| ==> IsMarker(lines[k])
  {
    if lines == [] || IsMarker(lines[0]) then 0 else 1 + NextMarker(lines[1..])
  }

  /** One exchange per block: a marker line and the lines up to the next one. Lines before the first are dropped. */
  function Exchanges(lines: seq<string>): seq<Exchange>
    decreases |lines|
  {
    if lines == [] then []
    else if !IsMarker(lines[0]) then Exchanges(lines[1..])
    else
      var k := NextMarker(lines[1..]);
      [Block(lines[0], lines[1..][..k])] + Exchanges(lines[1..][k..])
  }

  function Block(marker: string, body: seq<string>): Exchange
    requires IsMarker(marker)
  {
    Exchange(Trim(marker[2..]), Trim(Join(body)), None)
  }

  lemma {:induction false} NextMarkerIs(lines: seq<string>, k: nat)
    requires k <= |lines| && forall i | 0 <= i < k :: !IsMarker(lines[i])
    requires k < |lines| ==> IsMarker(lines[k])
    ensures NextMarker(lines) == k
  {
    if lines != [] && k > 0 { NextMarkerIs(lines[1..], k - 1); }
  }

  /** A finished block in front: its exchange, then those of the rest. */
  lemma ExchangesOfBlock(marker: string, body: seq<string>, rest: seq<string>)
    requires IsMarker(marker) && forall l <- body :: !IsMarker(l)
    requires rest == [] || IsMarker(rest[0])
    ensures Exchanges([marker] + body + rest) == [Block(marker, body)] + Exchanges(rest)
  {
    var lines := [marker] + body + rest;
    assert lines[1..] == body + rest;
    NextMarkerIs(body + rest, |body|);
    assert (body + rest)[..|body|] == body && (body + rest)[|body|..] == rest;
  }

  /** `normalize_plain_text`, after the file is read. */
  method NormalizePlainText(text: string) returns (exchanges: seq<Exchange>)
    ensures exchanges == Exchanges(Lines(text))
  {
    hide Exchanges, Trim, Join, Lines;
    var lines := Lines(text);
    exchanges := [];
    var currentUser: Option<string> := None;
    var assistantLines: seq<string> := [];
    ghost var start := 0;
    assert lines[0..] == lines;
    for i := 0 to |lines|
      invariant start <= i
      invariant Exchanges(lines) == exchanges + Exchanges(lines[start..])
      invariant currentUser.None? ==> start == i && assistantLines == []
      invariant currentUser.Some? ==>
          start < i && IsMarker(lines[start]) && currentUser.value == Trim(lines[start][2..])
          && assistantLines == lines[start + 1..i] && forall l <- assistantLines :: !IsMarker(l)
    {
      var line := lines[i];
      if IsMarker(line) {
        if currentUser.Some? {
          BlockEnds(lines, start, i);
          exchanges := exchanges + [Exchange(currentUser.value, Trim(Join(assistantLines)), None)];
          assistantLines := [];
        }
        currentUser := Some(Trim(line[2..]));
        start := i;
      } else if currentUser.Some? {
        assert lines[start + 1..i + 1] == lines[start + 1..i] + [line];
        assistantLines := assistantLines + [line];
      } else {
        SkipLine(lines, start);
        start := i + 1;
      }
    }
    NoLinesLeft(lines);
    if currentUser.Some? {
      BlockEnds(lines, start, |lines|);
      exchanges := exchanges + [Exchange(currentUser.value, Trim(Join(assistantLines)), None)];
    }
  }

  lemma SkipLine(lines: seq<string>, start: nat)
    requires start < |lines| && !IsMarker(lines[start])
    ensures Exchanges(lines[start..]) == Exchanges(lines[start + 1..])
  {
    assert lines[start..][1..] == lines[start + 1..];
  }

  lemma NoLinesLeft(lines: seq<string>)
    ensures Exchanges(lines[|lines|..]) == []
  {
  }

  lemma BlockEnds(lines: seq<string>, start: nat, end: nat)
    requires start < end <= |lines| && IsMarker(lines[start])
    requires forall l <- lines[start + 1..end] :: !IsMarker(l)
    requires end < |lines| ==> IsMarker(lines[end])
    ensures Exchanges(lines[start..]) ==
            [Exchange(Trim(lines[start][2..]), Trim(Join(lines[start + 1..end])), None)] + Exchanges(lines[end..])
  {
    assert lines[start..] == [lines[start]] + lines[start + 1..end] + lines[end..];
    ExchangesOfBlock(lines[start], lines[start + 1..end], lines[end..]);
  }

  // ---- block by block ----

  predicate StartsUser(line: string) {
    |line| >= 2 && line[0] == '>' && line[1] == ' '
  }

  /** Where the block that starts at `i` ends: at the next user line, or with the text. */
  predicate EndsAt(lines: seq<string>, i: nat, end: nat) {
    && i < end <= |lines| && (forall k | i < k < end :: !StartsUser(lines[k]))
       && (end < |lines| ==> StartsUser(lines[end]))
  }

  predicate ReadsBlock(lines: seq<string>, i: nat, end: nat, x: Exchange) {
    && EndsAt(lines, i, end) && StartsUser(lines[i])
    && x == Exchange(Trim(lines[i][2..]), Trim(Join(lines[i + 1..end])), None)
  }

  /** One exchange for each of the user lines at these positions, and for no other. */
  ghost predicate ReadsBlocks(lines: seq<string>, from: nat, users: seq<nat>, xs: seq<Exchange>) {
    && |xs| == |users|
    && (forall j, k | 0 <= j < k < |users| :: users[j] < users[k])
    && (forall i: nat :: i in users <==> from <= i < |lines| && StartsUser(lines[i]))
    && forall k | 0 <= k < |users| :: BlockAt(lines, users[k], xs[k])
  }

  ghost predicate BlockAt(lines: seq<string>, i: nat, x: Exchange) {
    exists end: nat :: ReadsBlock(lines, i, end, x)
  }

  lemma MarkerExactly(line: string)
    ensures IsMarker(line) <==> StartsUser(line)
  {
  }

  /** What a plain text reads as: user lines, each with the lines up to the next one, joined and trimmed. */
  lemma {:induction false} ExchangesExactly(lines: seq<string>, from: nat) returns (users: seq<nat>)
    requires from <= |lines|
    ensures ReadsBlocks(lines, from, users, Exchanges(lines[from..]))
    decreases |lines| - from
  {
    hide Exchanges, Trim, Join, StartsUser, ReadsBlocks, ReadsBlock;
    if from == |lines| {
      users := [];
      NoLinesLeft(lines);
      NoBlocks(lines);
    } else {
      MarkerExactly(lines[from]);
      if StartsUser(lines[from]) {
        var end := BlockEnd(lines, from);
        var rest := ExchangesExactly(lines, end);
        BlockEnds(lines, from, end);
        users := [from] + rest;
        UserLineIsLong(lines[from]);
        var x := Exchange(Trim(lines[from][2..]), Trim(Join(lines[from + 1..end])), None);
        IsBlock(lines, from, end, x);
        BlockInFront(lines, from, end, x, rest, Exchanges(lines[end..]));
      } else {
        users := ExchangesExactly(lines, from + 1);
        SkipLine(lines, from);
        NoBlockHere(lines, from, users, Exchanges(lines[from + 1..]));
      }
    }
  }

  lemma UserLineIsLong(line: string)
    requires StartsUser(line)
    ensures |line| >= 2
  {
  }

  lemma IsBlock(lines: seq<string>, i: nat, end: nat, x: Exchange)
    requires i < |lines| && EndsAt(lines, i, end) && StartsUser(lines[i]) && |lines[i]| >= 2
    requires x == Exchange(Trim(lines[i][2..]), Trim(Join(lines[i + 1..end])), None)
    ensures ReadsBlock(lines, i, end, x)
  {
    hide Trim, Join;
  }

  lemma NoBlocks(lines: seq<string>)
    ensures ReadsBlocks(lines, |lines|, [], [])
  {
  }

  lemma NoBlockHere(lines: seq<string>, from: nat, users: seq<nat>, xs: seq<Exchange>)
    requires from < |lines| && !StartsUser(lines[from]) && ReadsBlocks(lines, from + 1, users, xs)
    ensures ReadsBlocks(lines, from, users, xs)
  {
    hide BlockAt, StartsUser;
  }

  lemma BlockEnd(lines: seq<string>, from: nat) returns (end: nat)
    requires from < |lines|
    ensures EndsAt(lines, from, end)
    ensures (forall l <- lines[from + 1..end] :: !IsMarker(l)) && (end < |lines| ==> IsMarker(lines[end]))
  {
    end := from + 1;
    while end < |lines| && !StartsUser(lines[end])
      invariant from < end <= |lines|
      invariant forall k | from < k < end :: !StartsUser(lines[k])
    {
      end := end + 1;
    }
    forall l <- lines[from + 1..end] ensures !IsMarker(l) { MarkerExactly(l); }
    if end < |lines| { MarkerExactly(lines[end]); }
  }

  lemma BlockInFront(lines: seq<string>, from: nat, end: nat, x: Exchange, users: seq<nat>, xs: seq<Exchange>)
    requires from < |lines| && EndsAt(lines, from, end) && StartsUser(lines[from])
    requires ReadsBlock(lines, from, end, x) && ReadsBlocks(lines, end, users, xs)
    ensures ReadsBlocks(lines, from, [from] + users, [x] + xs)
  {
    hide ReadsBlock, StartsUser;
    var all, blocks := [from] + users, [x] + xs;
    assert BlockAt(lines, from, x);
    hide BlockAt;
    forall k | 0 <= k < |all| ensures BlockAt(lines, all[k], blocks[k]) {
      if k > 0 { assert all[k] == users[k - 1] && blocks[k] == xs[k - 1]; }
    }
    forall i: nat ensures i in all <==> from <= i < |lines| && StartsUser(lines[i]) {
      assert i in all <==> i == from || i in users;
    }
    forall j, k | 0 <= j < k < |all| ensures all[j] < all[k] {
      assert all[k] in users;
    }
  }

  // ---- printing and reading back ----

  function RenderExchange(x: Exchange): string {
    MARKER + x.userText + "\n" + x.assistantText + "\n"
  }

  function Render(xs: seq<Exchange>): string {
    if xs == [] then "" else RenderExchange(xs[0]) + Render(xs[1..])
  }

  /** What survives printing: one trimmed user line, a trimmed answer without marker lines or CR LF, no timestamp. */
  predicate Printable(x: Exchange) {
    && '\n' !in x.userText && IsTrimmed(x.userText)
    && IsTrimmed(x.assistantText)
    && (forall l <- Split(x.assistantText) :: !IsMarker(l) && StripCr(l) == l)
    && x.timestamp.None?
  }

  /** The lines one rendered exchange contributes. */
  function BlockLines(x: Exchange): (r: seq<string>)
    ensures |r| >= 2
  {
    StripAll(Split(MARKER + x.userText) + Split(x.assistantText))
  }

  function AllLines(xs: seq<Exchange>): seq<string> {
    if xs == [] then [] else BlockLines(xs[0]) + AllLines(xs[1..])
  }

  lemma SplitRenderExchange(x: Exchange, rest: string)
    ensures Split(RenderExchange(x) + rest) == Split(MARKER + x.userText) + Split(x.assistantText) + Split(rest)
  {
    hide Split;
    var user := MARKER + x.userText;
    assert RenderExchange(x) + rest == user + "\n" + (x.assistantText + "\n" + rest);
    SplitAtNewline(user, x.assistantText + "\n" + rest);
    SplitAtNewline(x.assistantText, rest);
  }

  lemma {:induction false} SplitRender(xs: seq<Exchange>)
    ensures Split(Render(xs)) == Pieces(xs) + [""]
  {
    if xs != [] {
      SplitRenderExchange(xs[0], Render(xs[1..]));
      SplitRender(xs[1..]);
      hide Split;
      var head := Split(MARKER + xs[0].userText) + Split(xs[0].assistantText);
      assert Split(Render(xs)) == head + (Pieces(xs[1..]) + [""]);
    }
  }

  function Pieces(xs: seq<Exchange>): seq<string> {
    if xs == [] then [] else Split(MARKER + xs[0].userText) + Split(xs[0].assistantText) + Pieces(xs[1..])
  }

  lemma {:induction false} StripPieces(xs: seq<Exchange>)
    ensures StripAll(Pieces(xs)) == AllLines(xs)
  {
    if xs != [] {
      StripPieces(xs[1..]);
      var head := Split(MARKER + xs[0].userText) + Split(xs[0].assistantText);
      assert StripAll(head + Pieces(xs[1..])) == StripAll(head) + StripAll(Pieces(xs[1..]));
    }
  }

  lemma LinesOfRender(xs: seq<Exchange>)
    ensures Lines(Render(xs)) == AllLines(xs)
  {
    SplitRender(xs);
    StripPieces(xs);
    hide Split;
    assert (Pieces(xs) + [""])[..|Pieces(xs)|] == Pieces(xs);
  }

  /** The first line of a block is its marker line. */
  lemma BlockStartsWithMarker(x: Exchange)
    ensures IsMarker(BlockLines(x)[0])
    ensures BlockLines(x)[0][2..] == StripCr(Split(x.userText)[0])
    ensures |Split(MARKER + x.userText)| == |Split(x.userText)|
  {
    var s := MARKER + x.userText;
    assert s[1..] == " " + x.userText && s[1..][1..] == x.userText;
    var u := Split(x.userText);
    assert Split(s[1..]) == [[' '] + u[0]] + u[1..];
    assert Split(s) == [['>'] + ([' '] + u[0])] + u[1..];
    assert Split(s)[0] == MARKER + u[0];
    if u[0] != "" && u[0][|u[0]| - 1] == '\r' {
      assert StripCr(MARKER + u[0]) == MARKER + u[0][..|u[0]| - 1];
    } else {
      assert StripCr(MARKER + u[0]) == MARKER + u[0];
    }
  }

  /** A printable exchange renders to its own block. */
  lemma PrintableBlock(x: Exchange)
    requires Printable(x)
    ensures BlockLines(x) == [MARKER + x.userText] + Split(x.assistantText)
    ensures Block(MARKER + x.userText, Split(x.assistantText)) == x
  {
    var s := MARKER + x.userText;
    SplitSingle(s);
    SplitSingle(x.userText);
    BlockStartsWithMarker(x);
    JoinSplit(x.assistantText);
    assert StripCr(x.userText) == x.userText;
    assert s[2..] == x.userText;
    var pieces := Split(x.assistantText);
    assert StripAll([s] + pieces) == [s] + pieces by {
      assert StripCr(s) == s;
      forall i | 0 <= i < |pieces| ensures StripCr(pieces[i]) == pieces[i] { assert pieces[i] in pieces; }
    }
  }

  /** Reading back what was printed. */
  lemma {:induction false} PrintableReadsBack(xs: seq<Exchange>)
    requires forall x <- xs :: Printable(x)
    ensures Exchanges(AllLines(xs)) == xs
  {
    hide Exchanges, IsMarker, Printable, BlockLines, Block, Split;
    if xs == [] {
      NoLinesLeft([]);
    } else {
      PrintableReadsBack(xs[1..]);
      PrintedBlock(xs[0]);
      StartsWithMarker(xs[1..]);
      ExchangesOfBlock(MARKER + xs[0].userText, Split(xs[0].assistantText), AllLines(xs[1..]));
    }
  }

  lemma PrintedBlock(x: Exchange)
    requires Printable(x)
    ensures IsMarker(MARKER + x.userText) && forall l <- Split(x.assistantText) :: !IsMarker(l)
    ensures BlockLines(x) == [MARKER + x.userText] + Split(x.assistantText)
    ensures Block(MARKER + x.userText, Split(x.assistantText)) == x
  {
    PrintableBlock(x);
    hide Split, BlockLines, Block, Trim;
  }

  function Markers(lines: seq<string>): nat {
    if lines == [] then 0 else (if IsMarker(lines[0]) then 1 else 0) + Markers(lines[1..])
  }

  lemma {:induction false} MarkersAppend(a: seq<string>, b: seq<string>)
    ensures Markers(a + b) == Markers(a) + Markers(b)
  {
    if a == [] {
      assert a + b == b;
    } else {
      assert (a + b)[1..] == a[1..] + b;
      MarkersAppend(a[1..], b);
    }
  }

  lemma {:induction false} NoMarkers(lines: seq<string>)
    ensures Markers(lines) == 0 <==> forall l <- lines :: !IsMarker(l)
  {
    if lines != [] {
      NoMarkers(lines[1..]);
      assert forall l :: l in lines <==> l == lines[0] || l in lines[1..];
    }
  }

  /** As many exchanges as marker lines. */
  lemma {:induction false} CountExchanges(lines: seq<string>)
    ensures |Exchanges(lines)| == Markers(lines)
    decreases |lines|
  {
    hide Block, IsMarker, NextMarker;
    if lines != [] {
      if IsMarker(lines[0]) {
        var tail := lines[1..];
        var k := NextMarker(tail);
        var body, rest := tail[..k], tail[k..];
        CountExchanges(rest);
        MarkersAppend(body, rest);
        NoMarkers(body);
        assert tail == body + rest;
      } else {
        CountExchanges(lines[1..]);
      }
    }
  }

  lemma {:induction false} EnoughMarkers(xs: seq<Exchange>)
    ensures Markers(AllLines(xs)) >= |xs|
  {
    if xs != [] {
      EnoughMarkers(xs[1..]);
      BlockStartsWithMarker(xs[0]);
      MarkersAppend(BlockLines(xs[0]), AllLines(xs[1..]));
    }
  }

  /** A block that gives back its own exchange and holds no marker but its first line. */
  predicate BlockReadsBack(x: Exchange) {
    var b := BlockLines(x);
    IsMarker(b[0]) && Block(b[0], b[1..]) == x && forall l <- b[1..] :: !IsMarker(l)
  }

  /** Counting markers leaves the first block no second one. */
  lemma FirstBlockHasOneMarker(xs: seq<Exchange>)
    requires xs != [] && Markers(AllLines(xs)) == |xs|
    ensures IsMarker(BlockLines(xs[0])[0]) && forall l <- BlockLines(xs[0])[1..] :: !IsMarker(l)
  {
    hide BlockLines, IsMarker;
    var block := BlockLines(xs[0]);
    MarkersAppend(block, AllLines(xs[1..]));
    EnoughMarkers(xs[1..]);
    BlockStartsWithMarker(xs[0]);
    NoMarkers(block[1..]);
  }

  lemma StartsWithMarker(xs: seq<Exchange>)
    ensures AllLines(xs) == [] || IsMarker(AllLines(xs)[0])
  {
    if xs != [] { BlockStartsWithMarker(xs[0]); }
  }

  lemma FirstBlockReadsBack(xs: seq<Exchange>)
    requires xs != [] && Exchanges(AllLines(xs)) == xs
    ensures BlockReadsBack(xs[0]) && Exchanges(AllLines(xs[1..])) == xs[1..]
  {
    var block, rest := BlockLines(xs[0]), AllLines(xs[1..]);
    assert AllLines(xs) == block + rest;
    hide Exchanges, BlockLines, IsMarker, Block, AllLines;
    CountExchanges(AllLines(xs));
    FirstBlockHasOneMarker(xs);
    StartsWithMarker(xs[1..]);
    ExchangesOfBlock(block[0], block[1..], rest);
    SplitHead(xs, block, rest);
  }

  lemma SplitHead(xs: seq<Exchange>, block: seq<string>, rest: seq<string>)
    requires xs != [] && |block| >= 2 && IsMarker(block[0]) && Exchanges(block + rest) == xs
    requires Exchanges([block[0]] + block[1..] + rest) == [Block(block[0], block[1..])] + Exchanges(rest)
    ensures Block(block[0], block[1..]) == xs[0] && Exchanges(rest) == xs[1..]
  {
    hide Exchanges, IsMarker, Block;
    assert block == [block[0]] + block[1..];
  }

  lemma {:induction false} ReadBackByBlock(xs: seq<Exchange>)
    requires Exchanges(AllLines(xs)) == xs
    ensures forall x <- xs :: BlockReadsBack(x)
  {
    hide Exchanges, AllLines, BlockReadsBack;
    if xs != [] {
      FirstBlockReadsBack(xs);
      ReadBackByBlock(xs[1..]);
      assert xs == [xs[0]] + xs[1..];
    }
  }

  lemma {:induction false} JoinLength(lines: seq<string>)
    ensures |Join(StripAll(lines))| <= |Join(lines)|
    ensures |Join(StripAll(lines))| == |Join(lines)| ==> StripAll(lines) == lines
  {
    if |lines| > 1 {
      assert StripAll(lines)[1..] == StripAll(lines[1..]);
      JoinLength(lines[1..]);
      if |Join(StripAll(lines))| == |Join(lines)| {
        assert lines == [lines[0]] + lines[1..];
        assert StripAll(lines) == [StripCr(lines[0])] + StripAll(lines[1..]);
      }
    }
  }

  lemma UserReadsBack(x: Exchange)
    requires BlockReadsBack(x)
    ensures '\n' !in x.userText && IsTrimmed(x.userText) && BlockLines(x)[1..] == StripAll(Split(x.assistantText))
  {
    BlockStartsWithMarker(x);
    var first := Split(x.userText)[0];
    assert first in Split(x.userText);
    assert x.userText == Trim(StripCr(first));
    assert '\n' !in x.userText;
    BlockTail(x);
  }

  lemma BlockTail(x: Exchange)
    requires '\n' !in x.userText
    ensures BlockLines(x)[1..] == StripAll(Split(x.assistantText))
  {
    SplitSingle(MARKER + x.userText);
    hide Split, StripCr;
    assert BlockLines(x) == StripAll([MARKER + x.userText] + Split(x.assistantText));
  }

  lemma AnswerReadsBack(answer: string)
    requires Trim(Join(StripAll(Split(answer)))) == answer
    ensures StripAll(Split(answer)) == Split(answer) && IsTrimmed(answer)
  {
    JoinSplit(answer);
    JoinLength(Split(answer));
  }

  lemma ReadBackIsPrintable(x: Exchange)
    requires BlockReadsBack(x)
    ensures Printable(x)
  {
    UserReadsBack(x);
    AnswerReadsBack(x.assistantText);
    var a := Split(x.assistantText);
    hide Split, Trim, Join, BlockLines, IsMarker, StripCr;
    forall l <- a ensures !IsMarker(l) && StripCr(l) == l {
      var i :| 0 <= i < |a| && a[i] == l;
      assert StripAll(a)[i] == l && l in BlockLines(x)[1..];
    }
  }

  /** Printing and normalising gives the list back exactly when every exchange is printable. */
  lemma RoundTripExactly(xs: seq<Exchange>)
    ensures Exchanges(Lines(Render(xs))) == xs <==> forall x <- xs :: Printable(x)
  {
    LinesOfRender(xs);
    if forall x <- xs :: Printable(x) {
      PrintableReadsBack(xs);
    }
    if Exchanges(AllLines(xs)) == xs {
      ReadBackByBlock(xs);
      forall x <- xs ensures Printable(x) { ReadBackIsPrintable(x); }
    }
  }
}
