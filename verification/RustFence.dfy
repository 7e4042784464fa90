/** Taking the Rust code out of an agent's answer: `answer_rust_code` and `closing_fence` of
    crates/chat/src/agent_runner.rs. */
module RustFence {
  import opened Wrappers
  import opened Collections
  import opened Text
  import opened Utf8

  const OPEN: string := "```rust"
  const TEST: string := "#[test]"

  // ── Lines ──

  /** Where the line that holds `at` ends, its newline included. */
  function LineEnd(s: string, at: nat): (e: nat)
    requires at < |s|
    ensures at < e <= |s|
    decreases |s| - at
  {
    if s[at] == '\n' || at + 1 == |s| then at + 1 else LineEnd(s, at + 1)
  }

  /** Only three or more backticks, and white space. */
  predicate IsFence(line: string) {
    var t := Trim(line);
    |t| >= 3 && forall c | c in t :: c == '`'
  }

  /** A fence: but for white space around it, nothing but three or more backticks. */
  lemma FenceIs(line: string)
    ensures IsFence(line) <==> exists n: nat :: n >= 3 && Trim(line) == Backticks(n)
  {
    hide Trim;
    if IsFence(line) {
      var t := Trim(line);
      assert forall i | 0 <= i < |t| :: t[i] in t;
      assert t == Backticks(|t|);
    }
  }

  function Backticks(n: nat): string {
    seq(n, i => '`')
  }

  /** The first fence line from `at` on: its start and the offset past it. */
  function Closing(body: string, at: nat): (r: Option<(nat, nat)>)
    requires at <= |body|
    ensures r.Some? ==> at <= r.value.0 < r.value.1 <= |body|
    decreases |body| - at
  {
    if at == |body| then None
    else
      var end := LineEnd(body, at);
      if IsFence(body[at..end]) then Some((at, end)) else Closing(body, end)
  }

  method ClosingFence(body: string) returns (r: Option<(nat, nat)>)
    ensures r == Closing(body, 0)
  {
    var at := 0;
    while at < |body|
      invariant at <= |body| && Closing(body, at) == Closing(body, 0)
    {
      var end := LineEnd(body, at);
      var t := Trim(body[at..end]);
      if |t| >= 3 && forall c | c in t :: c == '`' {
        return Some((at, end));
      }
      at := end;
    }
    r := None;
  }

  // ── Blocks ──

  /** Past the first newline, or at the end. */
  function BodyStart(after: string): (i: nat)
    ensures i <= |after|
  {
    if after == "" then 0 else if after[0] == '\n' then 1 else 1 + BodyStart(after[1..])
  }

  /** The bodies of the fenced blocks, from the left. */
  function Blocks(rest: string): seq<string>
    decreases |rest|
  {
    var start := Find(rest, OPEN, 0);
    if start > |rest| then []
    else
      var after := rest[start + |OPEN|..];
      var body := after[BodyStart(after)..];
      match Closing(body, 0)
      case None => []
      case Some((end, next)) => [body[..end]] + Blocks(body[next..])
  }

  lemma IsTestIff(block: string)
    ensures IsTest(block) <==> exists before, after :: block == before + "#[test]" + after
  {
    if IsTest(block) {
      var i :| 0 <= i <= |block| && IsAt(block, i, TEST);
      assert block == block[..i] + "#[test]" + block[i + 7..];
    }
    if before, after :| block == before + "#[test]" + after {
      assert IsAt(block, |before|, TEST);
    }
  }

  predicate IsTest(block: string) {
    Contains(block, TEST)
  }

  /** The first block with a test, else the last of the longest ones. */
  function Pick(blocks: seq<string>): Option<string> {
    match FirstTest(blocks)
    case Some(b) => Some(b)
    case None => Longest(blocks)
  }

  function FirstTest(blocks: seq<string>): Option<string> {
    if blocks == [] then None else if IsTest(blocks[0]) then Some(blocks[0]) else FirstTest(blocks[1..])
  }

  function Longest(blocks: seq<string>): Option<string> {
    if blocks == [] then None
    else match Longest(blocks[..|blocks| - 1])
      case None => Some(blocks[|blocks| - 1])
      case Some(b) =>
        if |Encode(b)| <= |Encode(blocks[|blocks| - 1])| then Some(blocks[|blocks| - 1]) else Some(b)
  }

  method AnswerRustCode(answer: string) returns (code: Option<string>)
    ensures code == Pick(Blocks(answer))
  {
    hide Closing, IsFence, Pick;
    var blocks: seq<string> := [];
    var rest := answer;
    while true
      invariant blocks + Blocks(rest) == Blocks(answer)
      decreases |rest|
    {
      var start := Find(rest, OPEN, 0);
      if start > |rest| {
        break;
      }
      var after := rest[start + |OPEN|..];
      var body := after[BodyStart(after)..];
      var close := ClosingFence(body);
      if close.None? {
        break;
      }
      var (end, next) := close.value;
      Assoc(blocks, [body[..end]], Blocks(body[next..]));
      blocks := blocks + [body[..end]];
      rest := body[next..];
    }
    assert blocks + [] == blocks;
    code := Pick(blocks);
  }

  // ── What is picked ──

  /** The block at `k` is the first with a test. */
  predicate FirstTestAt(blocks: seq<string>, k: nat) {
    k < |blocks| && IsTest(blocks[k]) && forall j | 0 <= j < k :: !IsTest(blocks[j])
  }

  predicate LongestAt(blocks: seq<string>, k: nat) {
    && k < |blocks| && (forall j | 0 <= j < |blocks| :: !IsTest(blocks[j]))
    && (forall j | 0 <= j < k :: |Encode(blocks[j])| <= |Encode(blocks[k])|)
    && (forall j | k < j < |blocks| :: |Encode(blocks[j])| < |Encode(blocks[k])|)
  }

  lemma {:induction false} FirstTestIs(blocks: seq<string>) returns (k: nat)
    ensures FirstTest(blocks).Some? ==> FirstTestAt(blocks, k) && FirstTest(blocks) == Some(blocks[k])
    ensures FirstTest(blocks).None? ==> forall j | 0 <= j < |blocks| :: !IsTest(blocks[j])
  {
    hide IsTest;
    k := 0;
    if blocks != [] && !IsTest(blocks[0]) {
      k := FirstTestIs(blocks[1..]);
      k := k + 1;
      assert forall j | 1 <= j < |blocks| :: blocks[j] == blocks[1..][j - 1];
    }
  }

  lemma {:induction false} LongestIs(blocks: seq<string>) returns (k: nat)
    requires blocks != []
    ensures k < |blocks| && Longest(blocks) == Some(blocks[k])
    ensures forall j | 0 <= j < k :: |Encode(blocks[j])| <= |Encode(blocks[k])|
    ensures forall j | k < j < |blocks| :: |Encode(blocks[j])| < |Encode(blocks[k])|
  {
    hide Encode;
    k := |blocks| - 1;
    var but := blocks[..k];
    if but != [] {
      var m := LongestIs(but);
      if |Encode(blocks[k])| < |Encode(but[m])| {
        k := m;
      }
    }
  }

  /** An answer without blocks gives none; otherwise the first block with a test, or, when
      none has one, the last of the longest. */
  lemma PickIs(blocks: seq<string>)
    ensures Pick(blocks).None? <==> blocks == []
    ensures blocks != [] ==>
              exists k: nat :: (FirstTestAt(blocks, k) || LongestAt(blocks, k)) && Pick(blocks) == Some(blocks[k])
  {
    hide FirstTest, Longest;
    var k := FirstTestIs(blocks);
    if FirstTest(blocks).None? && blocks != [] {
      var m := LongestIs(blocks);
      assert LongestAt(blocks, m);
    } else if blocks != [] {
      assert FirstTestAt(blocks, k);
    } else {
      assert Longest(blocks).None? by { LongestOfNone(); }
    }
  }

  lemma LongestOfNone()
    ensures Longest([]).None?
  {
  }

  // ── Code that was printed inside a fence ──

  predicate LineStart(s: string, at: nat) {
    at < |s| && (at == 0 || s[at - 1] == '\n')
  }

  /** No line is a fence. */
  ghost predicate FenceFree(code: string) {
    forall at: nat | LineStart(code, at) :: !IsFence(code[at..LineEnd(code, at)])
  }

  predicate WholeLines(code: string) {
    code == "" || code[|code| - 1] == '\n'
  }

  /** A line, the last one if it has no newline. */
  predicate IsLine(line: string, after: string) {
    && line != "" && (forall i | 0 <= i < |line| - 1 :: line[i] != '\n')
    && (line[|line| - 1] == '\n' || after == "")
  }

  /** The start of the first fence line from `at` on, or the end. */
  function FirstFence(code: string, at: nat): (r: nat)
    requires at <= |code|
    ensures at <= r <= |code|
    decreases |code| - at
  {
    if at == |code| then at
    else if IsFence(code[at..LineEnd(code, at)]) then at
    else FirstFence(code, LineEnd(code, at))
  }

  lemma {:induction false} LineEndIs(s: string, at: nat)
    requires at < |s|
    ensures var e := LineEnd(s, at); (e < |s| ==> s[e - 1] == '\n') && forall i | at <= i < e - 1 :: s[i] != '\n'
    decreases |s| - at
  {
    if s[at] != '\n' && at + 1 < |s| {
      LineEndIs(s, at + 1);
    }
  }

  lemma {:induction false} LineEndUnique(s: string, at: nat, e: nat)
    requires at < e <= |s| && (e == |s| || s[e - 1] == '\n') && forall i | at <= i < e - 1 :: s[i] != '\n'
    ensures LineEnd(s, at) == e
  {
    LineEndIs(s, at);
  }

  lemma {:induction false} FirstFenceIs(code: string, at: nat)
    requires LineStart(code, at) || at == |code|
    ensures FirstFence(code, at) == |code|
            <==> forall a: nat | at <= a && LineStart(code, a) :: !IsFence(code[a..LineEnd(code, a)])
    decreases |code| - at
  {
    hide IsFence;
    if at < |code| {
      var e := LineEnd(code, at);
      LineEndIs(code, at);
      if !IsFence(code[at..e]) {
        FirstFenceIs(code, e);
      }
    }
  }

  /** Whole lines in front of others are the same lines. */
  lemma LineInFront(code: string, rest: string, at: nat)
    requires WholeLines(code) && at < |code|
    ensures LineEnd(code + rest, at) == LineEnd(code, at)
    ensures (code + rest)[at..LineEnd(code, at)] == code[at..LineEnd(code, at)]
  {
    LineEndIs(code, at);
    LineEndUnique(code + rest, at, LineEnd(code, at));
  }

  /** The closing fence of code with a fence line after it: the first fence line there is. */
  lemma {:induction false} ClosingIs(code: string, fence: string, after: string, at: nat)
    requires WholeLines(code) && at <= |code| && IsLine(fence, after) && IsFence(fence)
    ensures Closing(code + (fence + after), at).Some?
    ensures var (end, next) := Closing(code + (fence + after), at).value;
            end == FirstFence(code, at) && (end == |code| ==> next == |code| + |fence|)
    decreases |code| - at
  {
    hide IsFence;
    var rest := fence + after;
    var body := code + rest;
    if at == |code| {
      assert body[at..at + |fence|] == fence;
      assert forall i | at <= i < at + |fence| - 1 :: body[i] == fence[i - at];
      LineEndUnique(body, at, at + |fence|);
    } else {
      LineInFront(code, rest, at);
      if !IsFence(code[at..LineEnd(code, at)]) {
        ClosingIs(code, fence, after, LineEnd(code, at));
      }
    }
  }

  lemma {:induction false} BodyStartIs(info: string, body: string)
    requires '\n' !in info
    ensures BodyStart(info + "\n" + body) == |info| + 1
  {
    var s := info + "\n" + body;
    if info != "" {
      var tail := info[1..];
      assert s[0] == info[0] && info[0] in info;
      assert s[1..] == tail + "\n" + body;
      BodyStartIs(tail, body);
    }
  }

  /** The opening fence has no part that starts it again, so text in front of it that does
      not hold one does not make one with it. */
  lemma OpensAt(before: string, after: string)
    requires !Contains(before, OPEN)
    ensures Find(before + OPEN + after, OPEN, 0) == |before|
  {
    var s := before + OPEN + after;
    assert IsAt(s, |before|, OPEN);
    forall i | 0 <= i < |before| ensures !IsAt(s, i, OPEN) {
      if IsAt(s, i, OPEN) {
        assert s[i..i + 7] == OPEN;
        assert s[i + 6] == OPEN[6] && s[i + 3] == OPEN[3];
        if i + 7 <= |before| {
          assert before[i..i + 7] == OPEN;
          assert IsAt(before, i, OPEN);
        } else {
          NoBorder(s, i, |before|);
        }
      }
    }
  }

  lemma NoBorder(s: string, i: nat, j: nat)
    requires i < j < i + 7 && IsAt(s, i, OPEN)
    ensures !IsAt(s, j, OPEN)
  {
    assert s[i + 6] == s[i..i + 7][6] == 't';
    if j + 7 <= |s| {
      assert s[i + 6] == s[j..j + 7][i + 6 - j];
    }
  }

  lemma {:induction false} NothingOpens(s: string)
    requires !Contains(s, OPEN)
    ensures Blocks(s) == []
  {
    var j := Find(s, OPEN, 0);
    assert j <= |s| ==> IsAt(s, j, OPEN);
  }

  /** What an answer holds: text, an opening fence line, code, a closing fence line. */
  datatype Part = Part(before: string, info: string, code: string, fence: string)

  ghost predicate PartOk(p: Part, after: string) {
    && !Contains(p.before, OPEN) && '\n' !in p.info && WholeLines(p.code)
    && IsFence(p.fence) && IsLine(p.fence, after)
  }

  function PrintPart(p: Part, after: string): string {
    p.before + OPEN + (p.info + "\n" + (p.code + (p.fence + after)))
  }

  /** The first block taken from it is the code up to its first fence line. */
  lemma FirstBlock(p: Part, after: string)
    requires PartOk(p, after)
    ensures var blocks := Blocks(PrintPart(p, after));
            && blocks != [] && blocks[0] == p.code[..FirstFence(p.code, 0)]
            && (FirstFence(p.code, 0) == |p.code| ==> blocks == [p.code] + Blocks(after))
  {
    hide IsFence, Closing, FirstFence, Contains;
    var body := p.code + (p.fence + after);
    var middle := p.info + "\n" + body;
    var s := PrintPart(p, after);
    OpensAt(p.before, middle);
    assert s[|p.before| + |OPEN|..] == middle;
    BodyStartIs(p.info, body);
    assert middle[|p.info| + 1..] == body;
    ClosingIs(p.code, p.fence, after, 0);
    var (end, next) := Closing(body, 0).value;
    assert body[..end] == p.code[..end];
    if end == |p.code| {
      assert body[next..] == after;
      assert p.code[..|p.code|] == p.code;
    }
  }

  /** Code comes out of its fence unchanged exactly when none of its lines is a fence. */
  lemma CodeIsUnchangedIff(p: Part, after: string)
    requires PartOk(p, after)
    ensures Blocks(PrintPart(p, after)) != []
    ensures Blocks(PrintPart(p, after))[0] == p.code <==> FenceFree(p.code)
  {
    FirstBlock(p, after);
    FirstFenceIs(p.code, 0);
  }

  function PrintAll(parts: seq<Part>, tail: string): string {
    if parts == [] then tail else PrintPart(parts[0], PrintAll(parts[1..], tail))
  }

  ghost predicate AllOk(parts: seq<Part>, tail: string) {
    if parts == [] then !Contains(tail, OPEN)
    else PartOk(parts[0], PrintAll(parts[1..], tail)) && FenceFree(parts[0].code) && AllOk(parts[1..], tail)
  }

  function Codes(parts: seq<Part>): seq<string> {
    seq(|parts|, i requires 0 <= i < |parts| => parts[i].code)
  }

  /** An answer with any number of such blocks gives back exactly their codes, in order, so
      what is picked is picked from them. */
  lemma {:induction false} AllCodesComeBack(parts: seq<Part>, tail: string)
    requires AllOk(parts, tail)
    ensures Blocks(PrintAll(parts, tail)) == Codes(parts)
  {
    hide PartOk, FenceFree, Blocks, PrintPart, Contains;
    if parts == [] {
      NothingOpens(tail);
    } else {
      var after := PrintAll(parts[1..], tail);
      UnchangedThen(parts[0], after);
      AllCodesComeBack(parts[1..], tail);
      assert Codes(parts) == [parts[0].code] + Codes(parts[1..]);
    }
  }

  lemma UnchangedThen(p: Part, after: string)
    requires PartOk(p, after) && FenceFree(p.code)
    ensures Blocks(PrintPart(p, after)) == [p.code] + Blocks(after)
  {
    FirstBlock(p, after);
    FirstFenceIs(p.code, 0);
  }

  /** One block and no other opening fence: the code is the answer. */
  lemma OneBlock(p: Part, after: string)
    requires PartOk(p, after) && FenceFree(p.code) && !Contains(after, OPEN)
    ensures Pick(Blocks(PrintPart(p, after))) == Some(p.code)
  {
    UnchangedThen(p, after);
    NothingOpens(after);
    assert [p.code] + [] == [p.code];
    PickIs([p.code]);
  }
}
