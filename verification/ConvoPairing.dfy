/** The pairing loops and the parent-chain walk of `convo_normalizer.rs`. */
module ConvoPairing {
  import opened Common
  import opened Text
  import opened Convo

  datatype Kind = User | Assistant | Other

  datatype Message = Message(kind: Kind, text: string, timestamp: Option<string>)

  /** The first assistant text before the next user message, or nothing. */
  function FirstReply(ms: seq<Message>): string {
    if ms == [] || ms[0].kind.User? then ""
    else if ms[0].kind.Assistant? then ms[0].text
    else FirstReply(ms[1..])
  }

  /** One exchange per user message. */
  function Pairs(ms: seq<Message>): seq<Exchange> {
    if ms == [] then []
    else if ms[0].kind.User? then [Exchange(ms[0].text, FirstReply(ms[1..]), ms[0].timestamp)] + Pairs(ms[1..])
    else Pairs(ms[1..])
  }

  /** The positions of the user messages, in order. */
  function UserPositions(ms: seq<Message>, from: nat): (r: seq<nat>)
    requires from <= |ms|
    ensures forall k | 0 <= k < |r| :: from <= r[k] < |ms| && ms[r[k]].kind.User?
    ensures forall j, k | 0 <= j < k < |r| :: r[j] < r[k]
    ensures forall i | from <= i < |ms| && ms[i].kind.User? :: i in r
    decreases |ms| - from
  {
    if from == |ms| then []
    else if ms[from].kind.User? then [from] + UserPositions(ms, from + 1)
    else UserPositions(ms, from + 1)
  }

  /** `reply` is what the conversation answers to the user message at `i`. */
  predicate Answers(ms: seq<Message>, i: nat, reply: string) {
    || (exists j: nat | i < j < |ms| ::
          ms[j].kind.Assistant? && ms[j].text == reply && forall k | i < k < j :: ms[k].kind.Other?)
    || (reply == ""
        && forall j: nat | i < j < |ms| && ms[j].kind.Assistant? :: exists k | i < k < j :: ms[k].kind.User?)
  }

  lemma {:induction false} FirstReplyAnswers(ms: seq<Message>, i: nat, from: nat)
    requires i < from <= |ms| && forall k | i < k < from :: ms[k].kind.Other?
    ensures Answers(ms, i, FirstReply(ms[from..]))
    decreases |ms| - from
  {
    if from < |ms| {
      if ms[from].kind.Other? {
        assert ms[from..][1..] == ms[from + 1..];
        FirstReplyAnswers(ms, i, from + 1);
      } else if ms[from].kind.User? {
        assert forall j: nat | i < j < |ms| && ms[j].kind.Assistant? :: from < j;
      }
    }
  }

  /** The exchanges are those of the user messages at these positions, each with its own answer. */
  ghost predicate Conserves(ms: seq<Message>, users: seq<nat>, pairs: seq<Exchange>) {
    && |pairs| == |users|
    && forall k | 0 <= k < |users| :: Conserved(ms, users[k], pairs[k])
  }

  predicate Conserved(ms: seq<Message>, i: nat, pair: Exchange) {
    i < |ms| && pair.userText == ms[i].text && pair.timestamp == ms[i].timestamp && Answers(ms, i, pair.assistantText)
  }

  /** No user turn is lost, doubled, reordered or given another one's timestamp, and each has its own answer. */
  lemma {:induction false} PairsConserveUsers(ms: seq<Message>, from: nat)
    requires from <= |ms|
    ensures Conserves(ms, UserPositions(ms, from), Pairs(ms[from..]))
    decreases |ms| - from
  {
    hide FirstReply, Answers, Pairs, Conserves;
    if from == |ms| {
      PairsOfNothing(ms);
      ConservesNothing(ms);
    } else {
      PairsConserveUsers(ms, from + 1);
      PairsAt(ms, from);
      if ms[from].kind.User? {
        FirstReplyAnswers(ms, from, from + 1);
        var pair := Exchange(ms[from].text, FirstReply(ms[from + 1..]), ms[from].timestamp);
        ConservesOneMore(ms, from, pair, UserPositions(ms, from + 1), Pairs(ms[from + 1..]));
      } else {
        assert [] + Pairs(ms[from + 1..]) == Pairs(ms[from + 1..]);
      }
    }
  }

  lemma ConservesNothing(ms: seq<Message>)
    ensures Conserves(ms, [], [])
  {
  }

  lemma ConservesOneMore(ms: seq<Message>, i: nat, pair: Exchange, users: seq<nat>, pairs: seq<Exchange>)
    requires Conserved(ms, i, pair) && Conserves(ms, users, pairs)
    ensures Conserves(ms, [i] + users, [pair] + pairs)
  {
    hide Conserved;
  }

  lemma PairsAt(ms: seq<Message>, from: nat)
    requires from < |ms|
    ensures Pairs(ms[from..]) ==
            (if ms[from].kind.User? then [Exchange(ms[from].text, FirstReply(ms[from + 1..]), ms[from].timestamp)]
             else [])
            + Pairs(ms[from + 1..])
  {
    hide FirstReply;
    assert ms[from..][1..] == ms[from + 1..];
  }

  lemma PairsOfNothing(ms: seq<Message>)
    ensures Pairs(ms[|ms|..]) == []
  {
  }

  /** The exchanges still owed: the pending user message, if any, in front of the remaining messages. */
  function Owed(user: Option<string>, timestamp: Option<string>, rest: seq<Message>): seq<Exchange> {
    if user.None? then Pairs(rest) else [Exchange(user.value, FirstReply(rest), timestamp)] + Pairs(rest)
  }

  // ---- Claude JSONL ----

  /** A decoded JSONL line; a line that is not JSON is absent. */
  datatype ClaudeEntry = ClaudeEntry(role: string, content: string, timestamp: Option<string>)

  function ClaudeKind(role: string): Kind {
    if role in {"user", "human"} then User
    else if role in {"assistant", "ai", "model"} then Assistant
    else Other
  }

  function ClaudeMessages(entries: seq<Option<ClaudeEntry>>): seq<Message> {
    if entries == [] then []
    else
      var e := entries[0];
      (if e.Some? && Trim(e.value.content) != ""
       then [Message(ClaudeKind(e.value.role), Trim(e.value.content), e.value.timestamp)] else [])
      + ClaudeMessages(entries[1..])
  }

  lemma ClaudeStep(entries: seq<Option<ClaudeEntry>>, i: nat)
    requires i < |entries|
    ensures var e, rest := entries[i], ClaudeMessages(entries[i + 1..]);
            ClaudeMessages(entries[i..]) ==
            if e.Some? && Trim(e.value.content) != ""
            then [Message(ClaudeKind(e.value.role), Trim(e.value.content), e.value.timestamp)] + rest else rest
  {
    assert entries[i..][1..] == entries[i + 1..];
  }

  lemma NoClaudeMessages(entries: seq<Option<ClaudeEntry>>)
    ensures ClaudeMessages(entries[|entries|..]) == []
  {
  }

  /** The loop of `normalize_claude_jsonl`. */
  method PairClaude(entries: seq<Option<ClaudeEntry>>) returns (exchanges: seq<Exchange>)
    ensures exchanges == Pairs(ClaudeMessages(entries))
  {
    hide Trim, Pairs, FirstReply, Owed, ClaudeMessages, ClaudeKind;
    exchanges := [];
    var currentUser: Option<string>, currentTs: Option<string> := None, None;
    var i := 0;
    assert entries[0..] == entries;
    OwedEnds(ClaudeMessages(entries), currentUser, currentTs);
    while i < |entries|
      invariant 0 <= i <= |entries|
      invariant Pairs(ClaudeMessages(entries)) == exchanges + Owed(currentUser, currentTs, ClaudeMessages(entries[i..]))
      invariant currentUser.None? ==> currentTs.None?
    {
      ClaudeStep(entries, i);
      if entries[i].Some? && Trim(entries[i].value.content) != "" {
        var entry := entries[i].value;
        var content := Trim(entry.content);
        OwedStep(currentUser, currentTs, Message(ClaudeKind(entry.role), content, entry.timestamp),
                 ClaudeMessages(entries[i + 1..]));
        match ClaudeKind(entry.role) {
          case User =>
            if currentUser.Some? {
              exchanges := exchanges + [Exchange(currentUser.value, "", currentTs)];
            }
            currentUser, currentTs := Some(content), entry.timestamp;
          case Assistant =>
            if currentUser.Some? {
              exchanges := exchanges + [Exchange(currentUser.value, content, currentTs)];
              currentUser, currentTs := None, None;
            }
          case Other =>
        }
      }
      i := i + 1;
    }
    NoClaudeMessages(entries);
    OwedEnds([], currentUser, currentTs);
    if currentUser.Some? {
      exchanges := exchanges + [Exchange(currentUser.value, "", currentTs)];
    }
  }

  lemma OwedEnds(ms: seq<Message>, user: Option<string>, timestamp: Option<string>)
    ensures Owed(None, None, ms) == Pairs(ms)
    ensures Owed(user, timestamp, []) == if user.Some? then [Exchange(user.value, "", timestamp)] else []
  {
  }

  /** What one message settles of the owed exchanges. */
  lemma OwedStep(user: Option<string>, timestamp: Option<string>, m: Message, rest: seq<Message>)
    ensures Owed(user, timestamp, [m] + rest) ==
            match m.kind
            case User => (if user.Some? then [Exchange(user.value, "", timestamp)] else [])
                + Owed(Some(m.text), m.timestamp, rest)
            case Assistant => (if user.Some? then [Exchange(user.value, m.text, timestamp)] else [])
                + Owed(None, None, rest)
            case Other => Owed(user, timestamp, rest)
  {
    assert ([m] + rest)[1..] == rest;
  }

  // ---- ChatGPT ----

  datatype ChatMessage = ChatMessage(role: string, text: string, timestamp: Option<string>)

  function ChatKind(role: string): Kind {
    if role == "user" then User else if role == "assistant" then Assistant else Other
  }

  function ChatMessages(messages: seq<ChatMessage>): seq<Message> {
    seq(|messages|,
        i requires 0 <= i < |messages| => Message(ChatKind(messages[i].role), messages[i].text, messages[i].timestamp))
  }

  /** The loop of `append_chatgpt_conversation`: the same pairing, appended to earlier conversations. */
  method PairChat(messages: seq<ChatMessage>, earlier: seq<Exchange>) returns (exchanges: seq<Exchange>)
    ensures exchanges == earlier + Pairs(ChatMessages(messages))
  {
    hide Pairs, FirstReply, Owed;
    exchanges := earlier;
    var currentUser: Option<string>, currentTs: Option<string> := None, None;
    ghost var ms := ChatMessages(messages);
    assert ms[0..] == ms;
    OwedEnds(ms, currentUser, currentTs);
    for i := 0 to |messages|
      invariant earlier + Pairs(ms) == exchanges + Owed(currentUser, currentTs, ms[i..])
      invariant currentUser.None? ==> currentTs.None?
    {
      var message := messages[i];
      assert ms[i..] == [ms[i]] + ms[i + 1..];
      OwedStep(currentUser, currentTs, ms[i], ms[i + 1..]);
      match ChatKind(message.role) {
        case User =>
          if currentUser.Some? {
            exchanges := exchanges + [Exchange(currentUser.value, "", currentTs)];
          }
          currentUser, currentTs := Some(message.text), message.timestamp;
        case Assistant =>
          if currentUser.Some? {
            exchanges := exchanges + [Exchange(currentUser.value, message.text, currentTs)];
            currentUser, currentTs := None, None;
          }
        case Other =>
      }
    }
    assert ms[|messages|..] == [];
    OwedEnds([], currentUser, currentTs);
    if currentUser.Some? {
      exchanges := exchanges + [Exchange(currentUser.value, "", currentTs)];
    }
  }

  // ---- pairing, entry by entry ----

  /** The messages that are there. */
  function Kept(lines: seq<Option<Message>>): seq<Message> {
    if lines == [] then [] else (if lines[0].Some? then [lines[0].value] else []) + Kept(lines[1..])
  }

  predicate IsKind(line: Option<Message>, kind: Kind) {
    line.Some? && line.value.kind == kind
  }

  /** The first assistant line behind `i` and in front of the next user line, or nothing where there is none. */
  ghost predicate RepliesTo(lines: seq<Option<Message>>, i: nat, reply: string) {
    || (exists j: nat :: RepliesAt(lines, i, j, reply))
    || (reply == "" && forall j: nat | i < j < |lines| && IsKind(lines[j], Assistant) :: UserBetween(lines, i, j))
  }

  predicate RepliesAt(lines: seq<Option<Message>>, i: nat, j: nat, reply: string) {
    && i < j < |lines| && IsKind(lines[j], Assistant) && lines[j].value.text == reply
    && forall k | i < k < j :: !IsKind(lines[k], User) && !IsKind(lines[k], Assistant)
  }

  predicate UserBetween(lines: seq<Option<Message>>, i: nat, j: nat) {
    exists k | i < k < j && k < |lines| :: IsKind(lines[k], User)
  }

  lemma {:induction false} ReplyIsFirst(lines: seq<Option<Message>>, i: nat, from: nat)
    requires i < from <= |lines|
    requires forall k | i < k < from :: !IsKind(lines[k], User) && !IsKind(lines[k], Assistant)
    ensures RepliesTo(lines, i, FirstReply(Kept(lines[from..])))
    decreases |lines| - from
  {
    if from < |lines| {
      assert lines[from..][1..] == lines[from + 1..];
      if IsKind(lines[from], Assistant) {
        assert RepliesAt(lines, i, from, lines[from].value.text);
      } else if IsKind(lines[from], User) {
        forall j: nat | i < j < |lines| && IsKind(lines[j], Assistant) ensures UserBetween(lines, i, j) {
          assert from < j;
        }
      } else {
        ReplyIsFirst(lines, i, from + 1);
        FirstReplySkips(lines, from);
      }
    }
  }

  lemma KeptStep(lines: seq<Option<Message>>, from: nat)
    requires from < |lines|
    ensures Kept(lines[from..]) == (if lines[from].Some? then [lines[from].value] else []) + Kept(lines[from + 1..])
  {
    assert lines[from..][1..] == lines[from + 1..];
  }

  lemma FirstReplySkips(lines: seq<Option<Message>>, from: nat)
    requires from < |lines| && !IsKind(lines[from], User) && !IsKind(lines[from], Assistant)
    ensures FirstReply(Kept(lines[from..])) == FirstReply(Kept(lines[from + 1..]))
  {
    KeptStep(lines, from);
    var rest := Kept(lines[from + 1..]);
    hide Kept;
    if lines[from].Some? { assert ([lines[from].value] + rest)[1..] == rest; }
    assert lines[from].None? ==> [] + rest == rest;
  }

  /** One exchange for each of the user lines at these positions, and for no other. */
  ghost predicate PairedAt(lines: seq<Option<Message>>, from: nat, users: seq<nat>, pairs: seq<Exchange>) {
    && |pairs| == |users|
    && (forall j, k | 0 <= j < k < |users| :: users[j] < users[k])
    && (forall i: nat :: i in users <==> from <= i < |lines| && IsKind(lines[i], User))
    && forall k | 0 <= k < |users| :: PairOf(lines, users[k], pairs[k])
  }

  ghost predicate PairOf(lines: seq<Option<Message>>, i: nat, pair: Exchange) {
    && i < |lines| && IsKind(lines[i], User)
    && pair.userText == lines[i].value.text && pair.timestamp == lines[i].value.timestamp
    && RepliesTo(lines, i, pair.assistantText)
  }

  lemma {:induction false} PairsOfKept(lines: seq<Option<Message>>, from: nat) returns (users: seq<nat>)
    requires from <= |lines|
    ensures PairedAt(lines, from, users, Pairs(Kept(lines[from..])))
    decreases |lines| - from
  {
    if from == |lines| {
      users := [];
    } else {
      hide PairOf, RepliesTo, Kept, Pairs, FirstReply;
      var rest := PairsOfKept(lines, from + 1);
      KeptAt(lines, from);
      if IsKind(lines[from], User) {
        ReplyIsFirst(lines, from, from + 1);
        users := [from] + rest;
        var pair := Exchange(lines[from].value.text, FirstReply(Kept(lines[from + 1..])), lines[from].value.timestamp);
        UserPair(lines, from, pair);
        hide PairedAt, IsKind, Kept, Pairs, FirstReply;
        PairedInFront(lines, from, pair, rest, Pairs(Kept(lines[from + 1..])));
      } else {
        users := rest;
        assert [] + Pairs(Kept(lines[from + 1..])) == Pairs(Kept(lines[from + 1..]));
      }
    }
  }

  lemma UserPair(lines: seq<Option<Message>>, i: nat, pair: Exchange)
    requires i < |lines| && IsKind(lines[i], User) && RepliesTo(lines, i, pair.assistantText)
    requires pair.userText == lines[i].value.text && pair.timestamp == lines[i].value.timestamp
    ensures PairOf(lines, i, pair)
  {
  }

  lemma PairedInFront(lines: seq<Option<Message>>, from: nat, pair: Exchange, users: seq<nat>, pairs: seq<Exchange>)
    requires from < |lines| && IsKind(lines[from], User) && PairOf(lines, from, pair)
    requires PairedAt(lines, from + 1, users, pairs)
    ensures PairedAt(lines, from, [from] + users, [pair] + pairs)
  {
    hide PairOf;
    assert forall k | 0 <= k < |users| :: users[k] in users;
  }

  lemma KeptAt(lines: seq<Option<Message>>, from: nat)
    requires from < |lines|
    ensures Pairs(Kept(lines[from..])) ==
            (if IsKind(lines[from], User)
             then [Exchange(lines[from].value.text, FirstReply(Kept(lines[from + 1..])), lines[from].value.timestamp)]
             else [])
            + Pairs(Kept(lines[from + 1..]))
  {
    KeptStep(lines, from);
    var rest := Kept(lines[from + 1..]);
    hide Kept;
    if lines[from].Some? { assert ([lines[from].value] + rest)[1..] == rest; }
    assert lines[from].None? ==> [] + rest == rest;
  }

  /** A Claude line that is JSON, has content, and was said by a user or an assistant under any of their names. */
  predicate ReadsAs(entry: Option<ClaudeEntry>, line: Option<Message>) {
    if entry.None? || IsBlank(entry.value.content) then line.None?
    else
      && line.Some? && line.value.text == Trim(entry.value.content) && line.value.timestamp == entry.value.timestamp
      && (line.value.kind == User <==> entry.value.role == "user" || entry.value.role == "human")
      && (line.value.kind == Assistant <==>
            entry.value.role == "assistant" || entry.value.role == "ai" || entry.value.role == "model")
  }

  predicate AllRead(entries: seq<Option<ClaudeEntry>>, lines: seq<Option<Message>>) {
    |lines| == |entries| && forall i | 0 <= i < |entries| :: ReadsAs(entries[i], lines[i])
  }

  lemma {:induction false} ClaudeReads(entries: seq<Option<ClaudeEntry>>) returns (lines: seq<Option<Message>>)
    ensures AllRead(entries, lines) && Kept(lines) == ClaudeMessages(entries)
  {
    if entries == [] {
      lines := [];
    } else {
      var rest := ClaudeReads(entries[1..]);
      var e := entries[0];
      if e.Some? { TrimOfBlank(e.value.content); }
      var line := if e.Some? && Trim(e.value.content) != ""
                  then Some(Message(ClaudeKind(e.value.role), Trim(e.value.content), e.value.timestamp)) else None;
      lines := [line] + rest;
      assert lines[1..] == rest;
      forall i | 0 <= i < |entries| ensures ReadsAs(entries[i], lines[i]) {
        assert i > 0 ==> entries[i] == entries[1..][i - 1];
      }
    }
  }

  /** The exchanges of a Claude export: one per kept user entry, with its trimmed words, its time and its own answer. */
  lemma ClaudePairsExactly(entries: seq<Option<ClaudeEntry>>) returns (lines: seq<Option<Message>>, users: seq<nat>)
    ensures AllRead(entries, lines) && PairedAt(lines, 0, users, Pairs(ClaudeMessages(entries)))
  {
    lines := ClaudeReads(entries);
    users := PairsOfKept(lines, 0);
    assert lines[0..] == lines;
  }

  /** A ChatGPT message, kept as it is; only the two plain roles take part. */
  predicate ReadsAsChat(m: ChatMessage, line: Option<Message>) {
    && line.Some? && line.value.text == m.text && line.value.timestamp == m.timestamp
    && (line.value.kind == User <==> m.role == "user") && (line.value.kind == Assistant <==> m.role == "assistant")
  }

  /** The exchanges of a ChatGPT conversation: one per user message, with its words, its time and its own answer. */
  lemma ChatPairsExactly(messages: seq<ChatMessage>) returns (lines: seq<Option<Message>>, users: seq<nat>)
    ensures |lines| == |messages| && forall i | 0 <= i < |messages| :: ReadsAsChat(messages[i], lines[i])
    ensures PairedAt(lines, 0, users, Pairs(ChatMessages(messages)))
  {
    var ms := ChatMessages(messages);
    lines := seq(|ms|, i requires 0 <= i < |ms| => Some(ms[i]));
    users := PairsOfKept(lines, 0);
    KeptOfAll(ms, lines);
    assert lines[0..] == lines;
  }

  lemma {:induction false} KeptOfAll(ms: seq<Message>, lines: seq<Option<Message>>)
    requires |lines| == |ms| && forall i | 0 <= i < |ms| :: lines[i] == Some(ms[i])
    ensures Kept(lines) == ms
  {
    if ms != [] { KeptOfAll(ms[1..], lines[1..]); }
  }

  // ---- the parent chain ----

  /** Each node's parent, if it names one. */
  type Parents = map<string, Option<string>>

  /** A repeat-free walk from `start` up its parents, leaf first, that can go no further. */
  predicate IsAscent(parents: Parents, start: string, chain: seq<string>) {
    if start !in parents then chain == []
    else
      && chain != [] && chain[0] == start
      && (forall k | 0 <= k < |chain| :: chain[k] in parents)
      && (forall j, k | 0 <= j < k < |chain| :: chain[j] != chain[k])
      && (forall k | 0 <= k < |chain| - 1 :: parents[chain[k]] == Some(chain[k + 1]))
      && Stuck(parents, chain)
  }

  lemma {:induction false} AscentsAgree(parents: Parents, start: string, a: seq<string>, b: seq<string>, n: nat)
    requires start in parents && IsAscent(parents, start, a) && IsAscent(parents, start, b)
    requires n <= |a| && n <= |b|
    ensures forall k | 0 <= k < n :: a[k] == b[k]
  {
    if n > 1 {
      AscentsAgree(parents, start, a, b, n - 1);
      assert parents[a[n - 2]] == Some(a[n - 1]) && parents[b[n - 2]] == Some(b[n - 1]);
    }
  }

  /** The walk is determined by the map and its start. */
  lemma AscentIsUnique(parents: Parents, start: string, a: seq<string>, b: seq<string>)
    requires IsAscent(parents, start, a) && IsAscent(parents, start, b)
    ensures a == b
  {
    if start in parents {
      var n := if |a| <= |b| then |a| else |b|;
      AscentsAgree(parents, start, a, b, n);
      StopsExactly(parents, start, a, n);
      StopsExactly(parents, start, b, n);
      assert a[..n] == b[..n];
    }
  }

  /** The walk cannot go on from what it has visited. */
  predicate Stuck(parents: Parents, visited: seq<string>)
    requires visited != [] && visited[|visited| - 1] in parents
  {
    var top := parents[visited[|visited| - 1]];
    top.None? || top.value !in parents || top.value in visited
  }

  /** An ascent stops at the first position where it is stuck. */
  lemma StopsExactly(parents: Parents, start: string, a: seq<string>, n: nat)
    requires start in parents && IsAscent(parents, start, a) && 1 <= n <= |a|
    ensures Stuck(parents, a[..n]) <==> n == |a|
  {
    if n < |a| {
      assert parents[a[n - 1]] == Some(a[n]);
    } else {
      assert a[..n] == a;
    }
  }

  function Reverse(s: seq<string>): (r: seq<string>)
    ensures |r| == |s| && forall k | 0 <= k < |s| :: r[k] == s[|s| - 1 - k]
  {
    seq(|s|, k requires 0 <= k < |s| => s[|s| - 1 - k])
  }

  lemma {:induction false} DistinctFit(s: seq<string>, keys: set<string>)
    requires forall j, k | 0 <= j < k < |s| :: s[j] != s[k]
    requires forall x <- s :: x in keys
    ensures |s| <= |keys|
  {
    if s != [] {
      var last := s[|s| - 1];
      DistinctFit(s[..|s| - 1], keys - {last});
    }
  }

  /** `active_chain_ids`: total on every parent map, cyclic ones included; the answer is the ascent, root first. */
  method ActiveChainIds(parents: Parents, start: string) returns (chain: seq<string>)
    ensures IsAscent(parents, start, Reverse(chain))
    ensures |chain| <= |parents|
  {
    var ids: seq<string> := [];
    var visited: set<string> := {};
    var node := Some(start);
    while node.Some? && node.value in parents && node.value !in visited
      invariant visited == set x <- ids
      invariant forall x <- ids :: x in parents
      invariant forall j, k | 0 <= j < k < |ids| :: ids[j] != ids[k]
      invariant forall k | 0 <= k < |ids| - 1 :: parents[ids[k]] == Some(ids[k + 1])
      invariant ids == [] ==> node == Some(start)
      invariant ids != [] ==> ids[0] == start && node == parents[ids[|ids| - 1]]
      decreases parents.Keys - visited
    {
      var id := node.value;
      visited := visited + {id};
      ids := ids + [id];
      node := parents[id];
    }
    chain := Reverse(ids);
    DistinctFit(ids, parents.Keys);
    assert IsAscent(parents, start, ids);
    hide IsAscent;
    assert Reverse(chain) == ids;
  }

  // ---- choosing the leaf ----

  /** A node of the mapping: its parent and the creation time of its message. */
  datatype Node = Node(parent: Option<string>, createTime: real)

  predicate IsLeaf(mapping: map<string, Node>, id: string) {
    id in mapping && forall other <- mapping :: mapping[other].parent != Some(id)
  }

  /** The leaf at position `at` is later than every other leaf among the first `n` keys, or as late and further on. */
  predicate LatestAmong(mapping: map<string, Node>, keys: seq<string>, n: nat, at: nat)
    requires at < n <= |keys| && forall k <- keys :: k in mapping
  {
    && IsLeaf(mapping, keys[at])
    && forall k: nat | k < n && IsLeaf(mapping, keys[k]) ::
         var mine, best := mapping[keys[k]].createTime, mapping[keys[at]].createTime;
         mine < best || (mine == best && k <= at)
  }

  /** `latest_leaf_node` over the map's keys in iteration order: `max_by` keeps the last of equals. */
  method LatestLeafNode(mapping: map<string, Node>, keys: seq<string>) returns (leaf: Option<string>)
    requires forall k :: k in keys <==> k in mapping
    ensures leaf.None? <==> forall id <- mapping :: !IsLeaf(mapping, id)
    ensures leaf.Some? ==> exists at: nat | at < |keys| ::
            keys[at] == leaf.value && LatestAmong(mapping, keys, |keys|, at)
  {
    var parents := set id <- mapping | mapping[id].parent.Some? :: mapping[id].parent.value;
    leaf := None;
    ghost var at: nat := 0;
    for i := 0 to |keys|
      invariant leaf.None? ==> forall k: nat | k < i :: !IsLeaf(mapping, keys[k])
      invariant leaf.Some? ==> at < i && keys[at] == leaf.value && LatestAmong(mapping, keys, i, at)
    {
      var id := keys[i];
      assert id in keys && (id !in parents <==> IsLeaf(mapping, id));
      if id !in parents && (leaf.None? || mapping[id].createTime >= mapping[leaf.value].createTime) {
        leaf, at := Some(id), i;
      }
    }
    assert leaf.None? ==> forall id <- mapping :: id in keys && !IsLeaf(mapping, id);
  }
}
