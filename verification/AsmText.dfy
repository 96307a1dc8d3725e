/** Assembly text: string data printed as db lines and read back, and comment stripping. */
module AsmText {
  import opened ByteCodec
  import opened Wrappers

  const NEWLINE: Byte := 10
  const QUOTE: Byte := 34
  const SEMICOLON: Byte := 59

  predicate Blank(c: Byte) { c == 32 || c == 9 }

  // ----- reading a db line -----

  /** What the assembler makes of a db line, byte by byte. */
  datatype Mode = Item | Quoted | After | Number(n: nat) | End | Bad

  datatype Reader = Reader(mode: Mode, bytes: seq<nat>)

  function Read(r: Reader, c: Byte): Reader {
    match r.mode
    case Item =>
      if c in {32, 9} then r
      else if c == 34 then r.(mode := Quoted)
      else if 48 <= c <= 57 then r.(mode := Number(c - 48))
      else r.(mode := Bad)
    case Quoted =>
      if c == 34 then r.(mode := After)
      else if c == 10 then r.(mode := Bad)
      else r.(bytes := r.bytes + [c])
    case After =>
      if c in {32, 9} then r
      else if c == 44 then r.(mode := Item)
      else if c == 10 then r.(mode := End)
      else r.(mode := Bad)
    case Number(n) =>
      if 48 <= c <= 57 then r.(mode := Number(10 * n + (c - 48)))
      else if c == 44 then Reader(Item, r.bytes + [n])
      else if c == 10 then Reader(End, r.bytes + [n])
      else r.(mode := Bad)
    case End => r.(mode := Bad)
    case Bad => r
  }

  function ReadAll(r: Reader, text: Bytes): Reader
    decreases |text|
  {
    if text == [] then r else ReadAll(Read(r, text[0]), text[1..])
  }

  lemma {:induction false} ReadAppend(r: Reader, a: Bytes, b: Bytes)
    ensures ReadAll(r, a + b) == ReadAll(ReadAll(r, a), b)
    decreases |a|
  {
    if a == [] {
      assert a + b == b;
    } else {
      assert (a + b)[1..] == a[1..] + b;
      ReadAppend(Read(r, a[0]), a[1..], b);
    }
  }

  function Directive(): (b: Bytes)
    ensures |b| == 7
  {
    [32, 32, 32, 32, 100, 98, 32]
  }

  /** The data a db line defines. */
  function ParseDb(line: Bytes): Option<seq<nat>> {
    if |line| < 7 || line[..7] != [32, 32, 32, 32, 100, 98, 32] then None
    else
      var r := ReadAll(Reader(Item, []), line[7..]);
      if r.mode.End? then Some(r.bytes) else None
  }

  lemma {:induction false} ReadDecimal(r: Reader, n: nat)
    requires r.mode.Item?
    ensures ReadAll(r, Decimal(n)) == r.(mode := Number(n))
  {
    if n >= 10 {
      ReadDecimal(r, n / 10);
      ReadAppend(r, Decimal(n / 10), [48 + n % 10]);
    }
    assert [48 + n % 10][1..] == [];
  }

  lemma ReadOne(r: Reader, c: Byte)
    ensures ReadAll(r, [c]) == Read(r, c)
  {
    assert [c][1..] == [];
  }

  lemma ReadTwo(r: Reader, c: Byte, d: Byte)
    ensures ReadAll(r, [c, d]) == Read(Read(r, c), d)
  {
    assert [c, d][1..] == [d];
    ReadOne(Read(r, c), d);
  }

  // ----- comment stripping -----

  /** The first semicolon outside quotes, scanning from i with the given quote state. */
  function CommentStart(line: Bytes, i: nat, quoted: bool): (k: Option<nat>)
    requires i <= |line|
    ensures k.Some? ==> i <= k.value < |line| && line[k.value] == SEMICOLON
    decreases |line| - i
  {
    if i == |line| then None
    else if line[i] == QUOTE then CommentStart(line, i + 1, !quoted)
    else if !quoted && line[i] == SEMICOLON then Some(i)
    else CommentStart(line, i + 1, quoted)
  }

  function FirstNonBlank(line: Bytes, i: nat): (k: nat)
    requires i <= |line|
    ensures i <= k <= |line| && forall j :: i <= j < k ==> Blank(line[j])
    ensures k < |line| ==> !Blank(line[k])
    decreases |line| - i
  {
    if i < |line| && Blank(line[i]) then FirstNonBlank(line, i + 1) else i
  }

  function TrimEnd(line: Bytes): (t: Bytes)
    ensures t <= line
  {
    if line != [] && Blank(line[|line| - 1]) then TrimEnd(line[..|line| - 1]) else line
  }

  /** A comment line disappears; a trailing comment goes with the blanks before it. */
  function StripLine(line: Bytes): (t: Bytes)
    ensures t <= line
  {
    var first := FirstNonBlank(line, 0);
    if first < |line| && line[first] == SEMICOLON then []
    else
      var k := CommentStart(line, 0, false);
      if k.None? then line else TrimEnd(line[..k.value])
  }

  function LineEnd(text: Bytes, i: nat): (e: nat)
    requires i <= |text|
    ensures i <= e <= |text| && NEWLINE !in text[i..e] && (e < |text| ==> text[e] == NEWLINE)
    decreases |text| - i
  {
    if i < |text| && text[i] != NEWLINE then LineEnd(text, i + 1) else i
  }

  function Strip(text: Bytes): Bytes
    decreases |text|
  {
    if text == [] then []
    else
      var e := LineEnd(text, 0);
      StripLine(text[..e]) + if e < |text| then [NEWLINE] + Strip(text[e + 1..]) else []
  }

  function Newlines(text: Bytes): nat
    decreases |text|
  {
    if text == [] then 0 else (if text[0] == NEWLINE then 1 else 0) + Newlines(text[1..])
  }

  lemma {:induction false} NewlinesAppend(a: Bytes, b: Bytes)
    ensures Newlines(a + b) == Newlines(a) + Newlines(b)
    decreases |a|
  {
    if a == [] {
      assert a + b == b;
    } else {
      assert (a + b)[1..] == a[1..] + b;
      NewlinesAppend(a[1..], b);
    }
  }

  lemma {:induction false} NoNewlines(a: Bytes)
    requires NEWLINE !in a
    ensures Newlines(a) == 0
    decreases |a|
  {
    if a != [] { NoNewlines(a[1..]); }
  }

  /** A shorter line shows the scan the same bytes. */
  lemma {:induction false} CommentBeyond(line: Bytes, j: nat, i: nat, quoted: bool)
    requires i <= j <= |line|
    requires CommentStart(line, i, quoted).Some? ==> j <= CommentStart(line, i, quoted).value
    ensures CommentStart(line[..j], i, quoted) == None
    decreases j - i
  {
    if i < j {
      if line[i] == QUOTE { CommentBeyond(line, j, i + 1, !quoted); } else { CommentBeyond(line, j, i + 1, quoted); }
    }
  }

  lemma {:induction false} FirstOfPrefix(line: Bytes, t: Bytes, i: nat)
    requires t <= line && i <= |t|
    ensures FirstNonBlank(t, i) < |t| ==> FirstNonBlank(line, i) == FirstNonBlank(t, i)
    decreases |t| - i
  {
    if i < |t| && Blank(t[i]) { FirstOfPrefix(line, t, i + 1); }
  }

  lemma StripLineTwice(line: Bytes)
    ensures StripLine(StripLine(line)) == StripLine(line)
  {
    var k := CommentStart(line, 0, false);
    var t := StripLine(line);
    FirstOfPrefix(line, t, 0);
    if k.Some? {
      CommentBeyond(line, |t|, 0, false);
      assert line[..|t|] == t;
    }
  }

  lemma {:induction false} LineEndOf(a: Bytes, b: Bytes, i: nat)
    requires NEWLINE !in a && i <= |a| && (b == [] || b[0] == NEWLINE)
    ensures LineEnd(a + b, i) == |a|
    decreases |a| - i
  {
    if i < |a| {
      assert (a + b)[i] == a[i] && a[i] in a;
      LineEndOf(a, b, i + 1);
    }
  }

  lemma StrippedClean(line: Bytes)
    requires NEWLINE !in line
    ensures NEWLINE !in StripLine(line)
  {
    var t := StripLine(line);
    assert forall i :: 0 <= i < |t| ==> t[i] == line[i];
  }

  /** One line and what follows it. */
  lemma StripStep(line: Bytes, rest: Bytes)
    requires NEWLINE !in line
    ensures Strip(line + [NEWLINE] + rest) == StripLine(line) + [NEWLINE] + Strip(rest)
  {
    hide StripLine;
    var text := line + [NEWLINE] + rest;
    assert text == line + ([NEWLINE] + rest);
    LineEndOf(line, [NEWLINE] + rest, 0);
    assert text[..|line|] == line && text[|line| + 1..] == rest;
  }

  lemma StripLast(line: Bytes)
    requires NEWLINE !in line
    ensures Strip(line) == StripLine(line)
  {
    if line != [] {
      LineEndOf(line, [], 0);
      assert line + [] == line && line[..|line|] == line;
    }
  }

  /** The first line of a text with a newline, and what follows it. */
  function FirstLine(text: Bytes): (parts: (Bytes, Bytes))
    requires NEWLINE in text
    ensures NEWLINE !in parts.0 && text == parts.0 + [NEWLINE] + parts.1 && |parts.1| < |text|
  {
    var e := LineEnd(text, 0);
    assert text[0..e] == text[..e];
    (text[..e], text[e + 1..])
  }

  /** Stripping again changes nothing. */
  lemma {:induction false} StripTwice(text: Bytes)
    ensures Strip(Strip(text)) == Strip(text)
    decreases |text|
  {
    hide *;
    if NEWLINE !in text {
      StripLast(text);
      StrippedClean(text);
      StripLast(StripLine(text));
      StripLineTwice(text);
    } else {
      var (line, rest) := FirstLine(text);
      StripStep(line, rest);
      StrippedClean(line);
      StripStep(StripLine(line), Strip(rest));
      StripLineTwice(line);
      StripTwice(rest);
    }
  }

  /** Stripping keeps every line in its place: the number of newlines is the same. */
  lemma {:induction false} StripKeepsNewlines(text: Bytes)
    ensures Newlines(Strip(text)) == Newlines(text)
    decreases |text|
  {
    hide *;
    if NEWLINE !in text {
      StripLast(text);
      StrippedClean(text);
      NoNewlines(StripLine(text));
      NoNewlines(text);
    } else {
      var (line, rest) := FirstLine(text);
      StripStep(line, rest);
      StrippedClean(line);
      NoNewlines(StripLine(line));
      NoNewlines(line);
      StripKeepsNewlines(rest);
      ThreePieces(line, [NEWLINE], rest);
      ThreePieces(StripLine(line), [NEWLINE], Strip(rest));
    }
  }

  lemma ThreePieces(a: Bytes, b: Bytes, c: Bytes)
    ensures Newlines(a + b + c) == Newlines(a) + Newlines(b) + Newlines(c)
  {
    NewlinesAppend(a, b);
    NewlinesAppend(a + b, c);
  }

  predicate EndsLine(text: Bytes) { text == [] || text[|text| - 1] == NEWLINE }

  /** Text after a line end is stripped on its own. */
  lemma {:induction false} StripAppend(a: Bytes, b: Bytes)
    requires EndsLine(a)
    ensures Strip(a + b) == Strip(a) + Strip(b)
    decreases |a|
  {
    hide Strip, StripLine, LineEnd;
    if a == [] {
      StripEmpty();
      assert a + b == b;
    } else {
      assert a[|a| - 1] in a;
      var (line, rest) := FirstLine(a);
      assert rest == [] || rest[|rest| - 1] == a[|a| - 1];
      assert a + b == line + [NEWLINE] + (rest + b);
      StripAppend(rest, b);
      StripAppendStep(line, rest, b);
    }
  }

  lemma StripAppendStep(line: Bytes, rest: Bytes, b: Bytes)
    requires NEWLINE !in line && Strip(rest + b) == Strip(rest) + Strip(b)
    ensures Strip(line + [NEWLINE] + (rest + b)) == Strip(line + [NEWLINE] + rest) + Strip(b)
  {
    hide *;
    StripStep(line, rest);
    StripStep(line, rest + b);
  }

  lemma StripEmpty()
    ensures Strip([]) == []
  {
  }

  // ----- what a comment is -----

  /** A comment opens at k: a semicolon with an even number of quotes before it. */
  ghost predicate Opens(line: Bytes, k: nat) { k < |line| && line[k] == 59 && multiset(line[..k])[34] % 2 == 0 }

  ghost predicate NoneOpens(line: Bytes, to: nat) { forall j: nat :: j < to ==> !Opens(line, j) }

  /** The first byte that is no space and no tab is a semicolon. */
  ghost predicate CommentLine(line: Bytes) {
    exists k :: 0 <= k < |line| && line[k] == 59 && forall j :: 0 <= j < k ==> line[j] in {32, 9}
  }

  /** Everything from k on is a comment or a blank before it, and nothing else is. */
  ghost predicate KeepsTo(line: Bytes, k: nat, t: Bytes) {
    && t <= line && |t| <= k <= |line|
    && (forall j :: |t| <= j < k ==> line[j] in {32, 9})
    && (t == [] || t[|t| - 1] !in {32, 9})
  }

  /** What stripping is to leave of one line: nothing of a comment line, all of a line without a comment, and
      otherwise the bytes up to the last non-blank one before the first comment. */
  ghost predicate Stripped(line: Bytes, t: Bytes) {
    if CommentLine(line) then t == []
    else
      && (NoneOpens(line, |line|) ==> t == line)
      && (forall k: nat :: Opens(line, k) && NoneOpens(line, k) ==> KeepsTo(line, k, t))
  }

  lemma {:induction false} CommentStartIs(line: Bytes, i: nat, quoted: bool)
    requires i <= |line| && quoted == (multiset(line[..i])[34] % 2 == 1)
    requires NoneOpens(line, i)
    ensures CommentStart(line, i, quoted).None? ==> NoneOpens(line, |line|)
    ensures CommentStart(line, i, quoted).Some? ==>
              Opens(line, CommentStart(line, i, quoted).value) && NoneOpens(line, CommentStart(line, i, quoted).value)
    decreases |line| - i
  {
    if i < |line| {
      assert line[..i + 1] == line[..i] + [line[i]];
      assert Opens(line, i) <==> !quoted && line[i] == SEMICOLON;
      if line[i] == QUOTE { CommentStartIs(line, i + 1, !quoted); }
      else if quoted || line[i] != SEMICOLON { CommentStartIs(line, i + 1, quoted); }
    }
  }

  lemma {:induction false} TrimEndIs(line: Bytes)
    ensures KeepsTo(line, |line|, TrimEnd(line))
    decreases |line|
  {
    if line != [] && Blank(line[|line| - 1]) { TrimEndIs(line[..|line| - 1]); }
  }

  lemma FirstComment(line: Bytes)
    ensures var k := CommentStart(line, 0, false);
            if k.None? then NoneOpens(line, |line|)
            else Opens(line, k.value) && NoneOpens(line, k.value) && !NoneOpens(line, |line|)
    ensures forall k: nat :: Opens(line, k) && NoneOpens(line, k) ==> CommentStart(line, 0, false) == Some(k)
  {
    assert multiset(line[..0])[34] == 0;
    CommentStartIs(line, 0, false);
    hide CommentStart;
  }

  lemma CommentLineIs(line: Bytes)
    ensures CommentLine(line) <==> FirstNonBlank(line, 0) < |line| && line[FirstNonBlank(line, 0)] == SEMICOLON
  {}

  lemma KeptPart(line: Bytes, k: nat)
    requires k <= |line|
    ensures KeepsTo(line, k, TrimEnd(line[..k]))
  {
    TrimEndIs(line[..k]);
  }

  /** The stripper does to a line what a comment asks for. */
  lemma LineStripped(line: Bytes)
    ensures Stripped(line, StripLine(line))
  {
    hide Opens, CommentLine, CommentStart, TrimEnd, FirstNonBlank, KeepsTo, NoneOpens;
    FirstComment(line);
    CommentLineIs(line);
    var k := CommentStart(line, 0, false);
    if k.Some? { KeptPart(line, k.value); }
  }

  lemma KeptOnce(line: Bytes, k: nat, t: Bytes, u: Bytes)
    requires KeepsTo(line, k, t) && KeepsTo(line, k, u)
    ensures t == u
  {
  }

  /** That leaves no choice. */
  lemma OneResult(line: Bytes, t: Bytes, u: Bytes)
    requires Stripped(line, t) && Stripped(line, u)
    ensures t == u
  {
    hide CommentLine, Opens, NoneOpens, KeepsTo, CommentStart;
    FirstComment(line);
    var k := CommentStart(line, 0, false);
    if !CommentLine(line) && k.Some? { KeptOnce(line, k.value, t, u); }
  }

  lemma OpensInPrefix(line: Bytes, t: Bytes, k: nat)
    requires t <= line && Opens(t, k)
    ensures Opens(line, k)
  {
    assert t[..k] == line[..k];
  }

  /** No comment survives. */
  lemma NoCommentLeft(line: Bytes, k: nat)
    ensures !Opens(StripLine(line), k)
  {
    hide CommentLine, CommentStart, TrimEnd, FirstNonBlank;
    FirstComment(line);
    if Opens(StripLine(line), k) { OpensInPrefix(line, StripLine(line), k); }
  }

  /** Lines joined by newlines. */
  function Joined(lines: seq<Bytes>): Bytes
    requires lines != []
  {
    if |lines| == 1 then lines[0] else lines[0] + [10] + Joined(lines[1..])
  }

  /** The second text is the first one stripped, line by line. */
  ghost predicate StrippedByLine(lines: seq<Bytes>, kept: seq<Bytes>) {
    |lines| == |kept| && forall i :: 0 <= i < |lines| ==> 10 !in lines[i] && Stripped(lines[i], kept[i])
  }

  lemma {:induction false} TextStripped(text: Bytes) returns (lines: seq<Bytes>, kept: seq<Bytes>)
    ensures lines != [] && StrippedByLine(lines, kept) && text == Joined(lines) && Strip(text) == Joined(kept)
    decreases |text|
  {
    hide StripLine, Strip, Stripped, LineEnd;
    if NEWLINE !in text {
      StripLast(text);
      LineStripped(text);
      lines, kept := [text], [StripLine(text)];
    } else {
      var (line, rest) := FirstLine(text);
      StripStep(line, rest);
      LineStripped(line);
      var ls, ks := TextStripped(rest);
      lines, kept := [line] + ls, [StripLine(line)] + ks;
      assert lines[1..] == ls && kept[1..] == ks;
    }
  }

  // ----- data lines and comments -----

  /** A scan that the reader follows to the end never meets a semicolon outside quotes. */
  lemma {:induction false} NoCommentIn(line: Bytes, i: nat, r: Reader)
    requires i <= |line| && ReadAll(r, line[i..]).mode != Bad
    ensures CommentStart(line, i, r.mode == Quoted) == None
    decreases |line| - i
  {
    if i < |line| {
      assert line[i..][1..] == line[i + 1..];
      if Read(r, line[i]).mode == Bad { BadStays(Read(r, line[i]), line[i + 1..]); }
      NoCommentIn(line, i + 1, Read(r, line[i]));
    }
  }

  lemma {:induction false} BadStays(r: Reader, text: Bytes)
    requires r.mode == Bad
    ensures ReadAll(r, text).mode == Bad
    decreases |text|
  {
    if text != [] { BadStays(Read(r, text[0]), text[1..]); }
  }

  /** The reader reaches the end of the line at its one newline, the last byte. */
  lemma {:induction false} EndIsLast(r: Reader, text: Bytes)
    requires r.mode != End && ReadAll(r, text).mode == End
    ensures text != [] && text[|text| - 1] == NEWLINE && NEWLINE !in text[..|text| - 1]
    ensures ReadAll(r, text[..|text| - 1]).mode != Bad
    decreases |text|
  {
    var next := Read(r, text[0]);
    if text[1..] == [] {
      assert text[..|text| - 1] == [];
      if r.mode == Bad { BadStays(r, text); }
    } else if next.mode == End {
      assert text[1..][0] == text[1];
      BadStays(Read(next, text[1]), text[1..][1..]);
    } else {
      EndIsLast(next, text[1..]);
      assert text[..|text| - 1][1..] == text[1..][..|text[1..]| - 1];
      if text[0] == NEWLINE { BadStays(next, text[1..]); }
      assert text[..|text| - 1] == [text[0]] + text[1..][..|text[1..]| - 1];
    }
  }

  /** A line that reads as data is left alone by stripping, semicolons and all. */
  lemma DataLineKept(line: Bytes)
    requires ParseDb(line).Some?
    ensures EndsLine(line) && Strip(line) == line
  {
    var r := Reader(Item, []);
    EndIsLast(r, line[7..]);
    var body := line[7..][..|line| - 8];
    var content := line[..|line| - 1];
    assert content == Directive() + body && line == content + [NEWLINE] + [];
    KeptContent(body);
    StripStep(content, []);
  }

  lemma KeptContent(body: Bytes)
    requires ReadAll(Reader(Item, []), body).mode != Bad
    ensures StripLine(Directive() + body) == Directive() + body
  {
    var line := Directive() + body;
    assert line[7..] == body;
    NoCommentIn(line, 7, Reader(Item, []));
    DirectiveScanned(line);
  }

  lemma DirectiveScanned(line: Bytes)
    requires Directive() <= line
    ensures CommentStart(line, 0, false) == CommentStart(line, 7, false)
    ensures FirstNonBlank(line, 0) == 4
  {
    assert forall k :: 0 <= k < 7 ==> line[k] == Directive()[k];
    assert CommentStart(line, 6, false) == CommentStart(line, 7, false);
    assert CommentStart(line, 5, false) == CommentStart(line, 6, false);
    assert CommentStart(line, 4, false) == CommentStart(line, 5, false);
    assert CommentStart(line, 3, false) == CommentStart(line, 4, false);
    assert CommentStart(line, 2, false) == CommentStart(line, 3, false);
    assert CommentStart(line, 1, false) == CommentStart(line, 2, false);
    assert FirstNonBlank(line, 3) == FirstNonBlank(line, 4) == 4;
    assert FirstNonBlank(line, 1) == FirstNonBlank(line, 2) == FirstNonBlank(line, 3);
  }

  /** In the middle of the assembly text the stripper leaves the data line as it was written. */
  lemma DataLineKeptInPlace(before: Bytes, line: Bytes, after: Bytes)
    requires EndsLine(before) && ParseDb(line).Some?
    ensures Strip(before + line + after) == Strip(before) + line + Strip(after)
  {
    hide *;
    DataLineKept(line);
    assert before + line + after == before + (line + after);
    StripAppend(before, line + after);
    StripAppend(line, after);
  }

  // ----- the writer of data lines -----

  predicate Printable(c: Byte) { 32 <= c <= 126 && c != QUOTE && c != 92 }

  ghost predicate At(line: Bytes, r: Reader) {
    Directive() <= line && ReadAll(Reader(Item, []), line[7..]) == r
  }

  lemma AtAppend(line: Bytes, more: Bytes, r: Reader)
    requires At(line, r)
    ensures At(line + more, ReadAll(r, more))
  {
    assert (line + more)[7..] == line[7..] + more;
    ReadAppend(Reader(Item, []), line[7..], more);
  }

  lemma AtByte(line: Bytes, c: Byte, r: Reader)
    requires At(line, r)
    ensures At(line + [c], Read(r, c))
  {
    AtAppend(line, [c], r);
    ReadOne(r, c);
  }

  lemma AtSeparator(line: Bytes, r: Reader)
    requires At(line, r) && (r.mode == After || r.mode.Number?)
    ensures At(line + [44, 32], Reader(Item, if r.mode == After then r.bytes else r.bytes + [r.mode.n]))
  {
    AtAppend(line, [44, 32], r);
    ReadTwo(r, 44, 32);
  }

  lemma AtNumber(line: Bytes, n: nat, r: Reader)
    requires At(line, r) && r.mode == Item
    ensures At(line + Decimal(n), r.(mode := Number(n)))
  {
    AtAppend(line, Decimal(n), r);
    ReadDecimal(r, n);
  }

  /** What the line reads as once the bytes of `done` are written. */
  function Progress(done: Bytes, quoted: bool): Reader {
    if quoted then Reader(Quoted, done)
    else if done == [] then Reader(Item, [])
    else Reader(Number(done[|done| - 1]), done[..|done| - 1])
  }

  /** The data a string is meant to define: its bytes, and a zero byte when asked for or when there is nothing else. */
  function Data(value: Bytes, terminated: bool): Bytes {
    value + if terminated || value == [] then [0] else []
  }

  method EmitSeparator(line: Bytes, emitted: bool, ghost r: Reader) returns (out: Bytes, ghost s: Reader)
    requires At(line, r)
    requires if emitted then r.mode == After || r.mode.Number? else r.mode == Item
    ensures At(out, s)
    ensures s == Reader(Item, if r.mode.Number? then r.bytes + [r.mode.n] else r.bytes)
  {
    out, s := line, r;
    if emitted {
      AtSeparator(line, r);
      s := Reader(Item, if r.mode == After then r.bytes else r.bytes + [r.mode.n]);
      out := line + [44, 32];
    }
  }

  /** One byte of the string: inside a quoted segment when it can be, as a decimal number otherwise. */
  method EmitStringByte(line: Bytes, c: Byte, emitted: bool, quoted: bool, ghost done: Bytes)
    returns (out: Bytes, q: bool)
    requires At(line, Progress(done, quoted))
    requires emitted == (done != []) && (quoted ==> emitted)
    ensures q == Printable(c) && At(out, Progress(done + [c], q))
  {
    hide At, ReadAll;
    ghost var r := Progress(done, quoted);
    assert !quoted && done != [] ==> done[..|done| - 1] + [done[|done| - 1]] == done;
    assert (done + [c])[..|done|] == done;
    out, q := line, quoted;
    if Printable(c) {
      if !q {
        out, r := EmitSeparator(out, emitted, r);
        AtByte(out, QUOTE, r);
        out, r := out + [QUOTE], Read(r, QUOTE);
        q := true;
      }
      AtByte(out, c, r);
      out := out + [c];
    } else {
      if q {
        AtByte(out, QUOTE, r);
        out, r := out + [QUOTE], Read(r, QUOTE);
        q := false;
      }
      out, r := EmitSeparator(out, emitted, r);
      AtNumber(out, c, r);
      out := out + Decimal(c);
    }
  }

  /** The closing quote, the terminator and the newline. */
  method EmitStringEnd(line: Bytes, value: Bytes, emitted: bool, quoted: bool, terminated: bool) returns (out: Bytes)
    requires At(line, Progress(value, quoted))
    requires emitted == (value != []) && (quoted ==> emitted)
    ensures At(out, Reader(End, Data(value, terminated)))
  {
    hide At, ReadAll;
    ghost var r := Progress(value, quoted);
    assert !quoted && value != [] ==> value[..|value| - 1] + [value[|value| - 1]] == value;
    out := line;
    if quoted {
      AtByte(out, QUOTE, r);
      out, r := out + [QUOTE], Read(r, QUOTE);
    }
    if terminated {
      out, r := EmitSeparator(out, emitted, r);
      AtNumber(out, 0, r);
      assert Decimal(0) == [48];
      out, r := out + [48], r.(mode := Number(0));
    } else if !emitted {
      AtNumber(out, 0, r);
      assert Decimal(0) == [48];
      out, r := out + [48], r.(mode := Number(0));
    }
    AtByte(out, NEWLINE, r);
    out := out + [NEWLINE];
    assert value + [] == value;
  }

  /** The db line of a C string reads back as the string. */
  method EmitEscapedStringBytes(value: Bytes, terminated: bool) returns (line: Bytes)
    requires 0 !in value
    ensures ParseDb(line) == Some(value + if terminated || value == [] then [0] else [])
  {
    line := Directive();
    var emitted, quoted := false, false;
    assert line[7..] == [];
    var i := 0;
    while i < |value|
      invariant 0 <= i <= |value| && emitted == (i > 0) && (quoted ==> emitted)
      invariant At(line, Progress(value[..i], quoted))
    {
      assert value[..i + 1] == value[..i] + [value[i]];
      line, quoted := EmitStringByte(line, value[i], emitted, quoted, value[..i]);
      emitted := true;
      i := i + 1;
    }
    assert value[..i] == value;
    line := EmitStringEnd(line, value, emitted, quoted, terminated);
  }

  // ----- the stripper -----

  /** The stripper's loops over source and destination positions. */
  method StripAsmComments(text: Bytes) returns (clean: Bytes)
    ensures clean == Strip(text)
    ensures exists lines, kept :: lines != [] && StrippedByLine(lines, kept) && text == Joined(lines) && clean == Joined(kept)
  {
    hide *;
    clean := [];
    var src := 0;
    assert text[0..] == text;
    StripEmpty();
    while src < |text|
      invariant 0 <= src <= |text| && clean + Strip(text[src..]) == Strip(text)
    {
      var lineStart, lineEnd := src, src;
      while lineEnd < |text| && text[lineEnd] != NEWLINE
        invariant lineStart <= lineEnd <= |text| && NEWLINE !in text[lineStart..lineEnd]
        decreases |text| - lineEnd
      {
        assert text[lineStart..lineEnd + 1] == text[lineStart..lineEnd] + [text[lineEnd]];
        lineEnd := lineEnd + 1;
      }
      var line := text[lineStart..lineEnd];
      ghost var before := clean;
      var left := StripOne(line);
      clean := clean + left;
      if lineEnd < |text| {
        clean := clean + [NEWLINE];
        ghost var rest := text[lineEnd + 1..];
        FromLine(text, src, line, rest);
        StripStep(line, rest);
        Reassociate(before, left, [NEWLINE], Strip(rest));
        src := lineEnd + 1;
        assert text[src..] == rest;
      } else {
        assert text[src..] == line;
        StripLast(line);
        src := lineEnd;
        assert text[src..] == [] && clean + [] == clean;
      }
    }
    assert text[src..] == [];
    assert clean == Strip(text);
    ghost var lines, kept := TextStripped(text);
  }

  lemma FromLine(text: Bytes, src: nat, line: Bytes, rest: Bytes)
    requires src + |line| < |text| && text[src..src + |line|] == line && text[src + |line|] == NEWLINE
    requires text[src + |line| + 1..] == rest
    ensures text[src..] == line + [NEWLINE] + rest
  {
  }

  lemma Reassociate(a: Bytes, b: Bytes, c: Bytes, d: Bytes)
    ensures a + (b + c + d) == a + b + c + d
  {
  }

  /** One line: the scan for a leading semicolon, then for one outside quotes, then the blanks. */
  method StripOne(line: Bytes) returns (kept: Bytes)
    ensures kept == StripLine(line)
  {
    var first := 0;
    while first < |line| && Blank(line[first])
      invariant 0 <= first <= |line| && FirstNonBlank(line, first) == FirstNonBlank(line, 0)
    {
      first := first + 1;
    }
    if first < |line| && line[first] == SEMICOLON { return []; }
    var inQuotes, i, commentStart := false, 0, None;
    while i < |line| && commentStart.None?
      invariant 0 <= i <= |line|
      invariant CommentStart(line, 0, false) == if commentStart.Some? then commentStart else CommentStart(line, i, inQuotes)
      decreases |line| - i, commentStart.None?
    {
      if line[i] == QUOTE {
        inQuotes := !inQuotes;
        i := i + 1;
      } else if !inQuotes && line[i] == SEMICOLON {
        commentStart := Some(i);
      } else {
        i := i + 1;
      }
    }
    if commentStart.None? { return line; }
    var copyEnd := commentStart.value;
    while copyEnd > 0 && Blank(line[copyEnd - 1])
      invariant 0 <= copyEnd <= |line| && TrimEnd(line[..copyEnd]) == TrimEnd(line[..commentStart.value])
    {
      assert line[..copyEnd][..copyEnd - 1] == line[..copyEnd - 1];
      copyEnd := copyEnd - 1;
    }
    kept := line[..copyEnd];
  }
}
