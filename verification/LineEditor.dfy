/** The debug console's line editor, waitMsg: characters in, command lines out. */
module LineEditor {
  import opened Base

  const HEADER := '$'
  const BS := '\U{0008}'

  /** The size of msgBuf less one. */
  const LIMIT := 4 * PARAM_NUM - 1

  /** One turn of the waitMsg loop: `buf` is msgBuf[..index]; the second result is the
      line handed to readStory, if any. */
  function Key(buf: string, c: char): (r: (string, Option<string>)) {
    if buf == [] then (if c == HEADER then [HEADER] else [], None)
    else if |buf| + 1 >= LIMIT then ([], None)
    else if c == LF then ([], Some(buf + [c]))
    else if c == HEADER then ([HEADER], None)
    else if c == BS then (buf[..|buf| - 1], None)
    else (buf + [c], None)
  }

  /** What the buffer holds, and which lines have been handed on, after an input. */
  function Pending(input: string): (buf: string) {
    if input == [] then [] else Key(Pending(input[..|input| - 1]), input[|input| - 1]).0
  }

  function Emitted(line: Option<string>): seq<string> {
    if line.Some? then [line.value] else []
  }

  function Lines(input: string): (lines: seq<string>) {
    if input == [] then []
    else
      var before := input[..|input| - 1];
      Lines(before) + Emitted(Key(Pending(before), input[|input| - 1]).1)
  }

  // ------------------------------------------------- the loop itself

  lemma OneKey(before: string, c: char)
    ensures Pending(before + [c]) == Key(Pending(before), c).0
    ensures Lines(before + [c]) == Lines(before) + Emitted(Key(Pending(before), c).1)
  {
  }

  /** The body of the waitMsg loop. */
  method Turn(msgBuf: array<char>, start: nat, c: char) returns (index: nat, line: Option<string>)
    requires msgBuf.Length == LIMIT + 1 && start < LIMIT
    modifies msgBuf
    ensures index < LIMIT && msgBuf[..index] == Key(old(msgBuf[..start]), c).0
    ensures line == Key(old(msgBuf[..start]), c).1
  {
    index, line := start, None;
    ghost var buf := msgBuf[..start];
    if index != 0 {
      msgBuf[index] := c;
      index := index + 1;
      assert msgBuf[..index] == buf + [c];
      if index >= LIMIT {
        index := 0;
      } else if c == LF {
        line := Some(msgBuf[..index]);
        msgBuf[index] := NUL;
        index := 0;
      } else if c == HEADER {
        msgBuf[0] := c;
        index := 1;
      } else if c == BS {
        index := index - 2;
        assert msgBuf[..index] == buf[..|buf| - 1];
      }
    } else if c == HEADER {
      msgBuf[0] := c;
      index := 1;
    }
  }

  /** waitMsg over a finite input: the buffer is updated in place and the index never
      leaves it. */
  method WaitMsg(input: string) returns (lines: seq<string>, msgBuf: array<char>, index: nat)
    ensures lines == Lines(input)
    ensures msgBuf.Length == LIMIT + 1 && index < LIMIT && msgBuf[..index] == Pending(input)
  {
    hide Key;
    msgBuf := new char[LIMIT + 1];
    index, lines := 0, [];
    var k := 0;
    assert input[..0] == [];
    while k < |input|
      invariant k <= |input| && index < LIMIT
      invariant msgBuf[..index] == Pending(input[..k]) && lines == Lines(input[..k])
    {
      var line;
      OneKey(input[..k], input[k]);
      assert input[..k + 1] == input[..k] + [input[k]];
      index, line := Turn(msgBuf, index, input[k]);
      if line.Some? {
        lines := lines + [line.value];
      }
      k := k + 1;
    }
    assert input[..k] == input;
  }

  // ------------------------------------------------- what a line looks like

  /** Text typed since a header: it starts with its only '$' and contains neither LF nor
      backspace. */
  ghost predicate Typed(buf: string) {
    && buf != [] && buf[0] == HEADER && |buf| < LIMIT
    && forall i | 1 <= i < |buf| :: buf[i] != HEADER && buf[i] != LF && buf[i] != BS
  }

  ghost predicate GoodLine(line: string) {
    line != [] && line[|line| - 1] == LF && Typed(line[..|line| - 1]) && |line| < LIMIT
  }

  lemma {:induction false} PendingTyped(input: string)
    ensures Pending(input) == [] || Typed(Pending(input))
  {
    if input != [] {
      PendingTyped(input[..|input| - 1]);
    }
  }

  /** Every line handed to readStory starts with its only '$', ends with its only LF,
      contains no backspace and fits the buffer with its NUL. */
  lemma {:induction false} LinesAreGood(input: string)
    ensures forall i | 0 <= i < |Lines(input)| :: GoodLine(Lines(input)[i])
  {
    if input != [] {
      var before := input[..|input| - 1];
      LinesAreGood(before);
      PendingTyped(before);
      var line := Key(Pending(before), input[|input| - 1]).1;
      if line.Some? {
        assert line.value[..|line.value| - 1] == Pending(before);
      }
    }
  }

  lemma TypedPrefix(buf: string, c: char)
    requires Typed(buf + [c]) && buf != []
    ensures Typed(buf) && Key(buf, c) == (buf + [c], None)
  {
    var more := buf + [c];
    assert more[0] == buf[0] && more[|buf|] == c;
    assert forall i | 0 <= i < |buf| :: buf[i] == more[i];
  }

  /** Text typed into an empty editor stays there untouched. */
  lemma {:induction false} TypedIsKept(before: string, buf: string)
    requires Pending(before) == [] && Typed(buf)
    ensures Pending(before + buf) == buf && Lines(before + buf) == Lines(before)
  {
    var last := |buf| - 1;
    assert before + buf == (before + buf[..last]) + [buf[last]];
    OneKey(before + buf[..last], buf[last]);
    if last > 0 {
      assert buf == buf[..last] + [buf[last]];
      TypedPrefix(buf[..last], buf[last]);
      hide Pending, Lines, Typed, Key;
      TypedIsKept(before, buf[..last]);
    } else {
      assert before + buf[..0] == before && buf == [HEADER];
    }
  }

  lemma GoodLineIsEmitted(before: string, line: string)
    requires Pending(before) == [] && GoodLine(line)
    ensures Pending(before + line) == [] && Lines(before + line) == Lines(before) + [line]
  {
    hide Pending, Lines, Typed;
    var text := line[..|line| - 1];
    TypedIsKept(before, text);
    assert before + line == (before + text) + [LF] && line == text + [LF];
    assert text != [] by {
      assert Typed(text);
      NotEmpty(text);
    }
    OneKey(before + text, LF);
  }

  lemma NotEmpty(buf: string)
    requires Typed(buf)
    ensures 0 < |buf| < LIMIT
  {
  }

  function Joined(lines: seq<string>): string {
    if lines == [] then [] else Joined(lines[..|lines| - 1]) + lines[|lines| - 1]
  }

  /** The editor is the identity on its own output: any lines it can emit, typed again
      one after the other, come out as they are. */
  lemma {:induction false} GoodLinesPass(lines: seq<string>)
    requires forall i | 0 <= i < |lines| :: GoodLine(lines[i])
    ensures Pending(Joined(lines)) == [] && Lines(Joined(lines)) == lines
  {
    hide GoodLine, Pending, Lines;
    if lines == [] {
      NothingTyped();
    } else {
      var before, last := lines[..|lines| - 1], lines[|lines| - 1];
      GoodLinesPass(before);
      GoodLineIsEmitted(Joined(before), last);
      assert before + [last] == lines;
    }
  }

  lemma NothingTyped()
    ensures Pending([]) == [] && Lines([]) == []
  {
  }

  // ------------------------------------------------- against a simple specification

  /** One edit of text that has begun: LF ends it, backspace removes its last character
      (and abandons it when that is the header), a text that would reach the limit is
      abandoned.  Abandoned text is empty and stays so. */
  function Edit(text: string, c: char): string {
    if text == [] || c == LF || |text| + 1 >= LIMIT then []
    else if c == BS then text[..|text| - 1]
    else text + [c]
  }

  function EditAll(text: string, rest: string): string {
    if rest == [] then text else Edit(EditAll(text, rest[..|rest| - 1]), rest[|rest| - 1])
  }

  /** The number of characters up to and including the last '$'. */
  function LastHeader(input: string): (n: nat)
    ensures n <= |input|
    ensures n > 0 ==> input[n - 1] == HEADER
    ensures forall i | n <= i < |input| :: input[i] != HEADER
  {
    if input == [] then 0
    else if input[|input| - 1] == HEADER then |input|
    else LastHeader(input[..|input| - 1])
  }

  /** The text typed since the last '$', edited. */
  function Text(input: string): string {
    var n := LastHeader(input);
    if n == 0 then [] else EditAll([HEADER], input[n..])
  }

  /** The lines a user would expect: the text at each LF, unless abandoned. */
  function TextLines(input: string): seq<string> {
    if input == [] then []
    else
      var before, c := input[..|input| - 1], input[|input| - 1];
      TextLines(before)
          + (if c == LF && Text(before) != [] && |Text(before)| + 1 < LIMIT then [Text(before) + [LF]] else [])
  }

  lemma {:induction false} TextStep(before: string, c: char)
    ensures Text(before + [c]) == if c == HEADER then [HEADER] else Edit(Text(before), c)
  {
    var input := before + [c];
    assert input[..|before|] == before;
    var n := LastHeader(input);
    if c == HEADER {
      assert input[n..] == [];
    } else {
      assert n == LastHeader(before);
      if n > 0 {
        assert input[n..] == before[n..] + [c];
        assert input[n..][..|before| - n] == before[n..];
      }
    }
  }

  lemma EmptyText()
    ensures Text([]) == []
  {
  }

  /** A '$' typed as the character that fills the buffer. */
  predicate HeaderLost(input: string, p: nat)
    requires p < |input|
  {
    input[p] == HEADER && |Text(input[..p])| == LIMIT - 1
  }

  /** One key does the same to the buffer as to the text, unless it is a '$' that fills it. */
  lemma KeyIsEdit(buf: string, c: char)
    requires !(c == HEADER && |buf| == LIMIT - 1) && |buf| < LIMIT
    ensures Key(buf, c).0 == if c == HEADER then [HEADER] else Edit(buf, c)
    ensures Key(buf, c).1 == if c == LF && buf != [] && |buf| + 1 < LIMIT then Some(buf + [c]) else None
  {
  }

  lemma {:induction false} SameUntilLost(input: string)
    requires forall p | 0 <= p < |input| :: !HeaderLost(input, p)
    ensures Pending(input) == Text(input) && Lines(input) == TextLines(input)
  {
    hide Key, Edit, Text;
    if input == [] {
      EmptyText();
    } else {
      var before, c := input[..|input| - 1], input[|input| - 1];
      forall p | 0 <= p < |before| ensures !HeaderLost(before, p) {
        assert before[..p] == input[..p] && !HeaderLost(input, p);
      }
      SameUntilLost(before);
      assert |Pending(before)| < LIMIT by { PendingTyped(before); }
      assert !HeaderLost(input, |before|);
      assert before + [c] == input;
      TextStep(before, c);
      KeyIsEdit(Pending(before), c);
    }
  }

  lemma LostDiffers(input: string, p: nat)
    requires p < |input| && HeaderLost(input, p) && Pending(input[..p]) == Text(input[..p])
    ensures Pending(input[..p + 1]) == [] && Text(input[..p + 1]) == [HEADER]
  {
    hide Edit, EditAll, LastHeader, Text;
    assert input[..p + 1][..p] == input[..p];
    assert input[..p + 1] == input[..p] + [HEADER];
    TextStep(input[..p], HEADER);
  }

  lemma KeptSame(input: string, k: nat)
    requires k <= |input|
    requires forall p | 0 <= p < |input| :: !HeaderLost(input, p)
    ensures Pending(input[..k]) == Text(input[..k])
  {
    hide Text, Pending;
    forall p | 0 <= p < k ensures !HeaderLost(input[..k], p) {
      assert input[..k][..p] == input[..p] && !HeaderLost(input, p);
    }
    SameUntilLost(input[..k]);
  }

  /** The editor holds the text since the last '$' after every prefix of the input, and
      then emits exactly the expected lines, if and only if no '$' arrives as the
      character that fills the buffer.  For the lines alone see LinesAreTextLines. */
  lemma EditorIsTextSinceHeader(input: string)
    ensures (forall k | 0 <= k <= |input| :: Pending(input[..k]) == Text(input[..k]))
            <==> (forall p | 0 <= p < |input| :: !HeaderLost(input, p))
    ensures (forall p | 0 <= p < |input| :: !HeaderLost(input, p)) ==> Lines(input) == TextLines(input)
  {
    hide Text, Pending, HeaderLost, Lines, TextLines;
    if p :| 0 <= p < |input| && HeaderLost(input, p) {
      if Pending(input[..p]) == Text(input[..p]) {
        LostDiffers(input, p);
        assert Pending(input[..p + 1]) != Text(input[..p + 1]);
      }
    } else {
      SameUntilLost(input);
      forall k | 0 <= k <= |input| ensures Pending(input[..k]) == Text(input[..k]) {
        KeptSame(input, k);
      }
    }
  }

  // ------------------------------------------------- the lines handed on

  /** The '$' that ends the first n characters is dropped: it fills the buffer, which
      holds the text of a '$' that was not dropped itself. */
  predicate Dropped(input: string, n: nat)
    requires n <= |input|
    decreases n
  {
    n > 0 && HeaderLost(input, n - 1) && !Dropped(input[..n - 1], LastHeader(input[..n - 1]))
  }

  lemma DroppedPrefix(before: string, c: char, n: nat)
    requires n <= |before|
    ensures Dropped(before + [c], n) <==> Dropped(before, n)
  {
    if n > 0 {
      assert (before + [c])[..n - 1] == before[..n - 1];
    }
  }

  lemma LastHeaderStep(before: string, c: char)
    ensures LastHeader(before + [c]) == if c == HEADER then |before| + 1 else LastHeader(before)
  {
    assert (before + [c])[..|before|] == before;
  }

  lemma DroppedStep(before: string, c: char)
    ensures Dropped(before + [c], LastHeader(before + [c])) <==>
            if c == HEADER then |Text(before)| == LIMIT - 1 && !Dropped(before, LastHeader(before))
            else Dropped(before, LastHeader(before))
  {
    LastHeaderStep(before, c);
    DroppedPrefix(before, c, LastHeader(before));
    assert (before + [c])[..|before|] == before;
  }

  /** The buffer is empty while the last '$' is one that was dropped, and otherwise holds
      the text since then. */
  lemma {:induction false} PendingExact(input: string)
    ensures Pending(input) == if Dropped(input, LastHeader(input)) then [] else Text(input)
  {
    hide Dropped, LastHeader, Text;
    if input == [] {
      EmptyText();
    } else {
      var before, c := input[..|input| - 1], input[|input| - 1];
      assert before + [c] == input;
      PendingExact(before);
      DroppedStep(before, c);
      TextStep(before, c);
      OneKey(before, c);
      PendingTyped(before);
    }
  }

  /** The LF at position q ends a text that a user would expect to be handed on, but whose
      '$' was dropped. */
  predicate LineLost(input: string, q: nat)
    requires q < |input|
  {
    var before := input[..q];
    input[q] == LF && Dropped(before, LastHeader(before)) && Text(before) != [] && |Text(before)| + 1 < LIMIT
  }

  /** The lines a user would expect, without those whose '$' was dropped. */
  function KeptLines(input: string): seq<string> {
    if input == [] then []
    else
      var before, c := input[..|input| - 1], input[|input| - 1];
      KeptLines(before)
          + (if c == LF && Text(before) != [] && |Text(before)| + 1 < LIMIT && !LineLost(input, |before|)
             then [Text(before) + [LF]] else [])
  }

  /** The editor hands on exactly these. */
  lemma {:induction false} LinesAreKept(input: string)
    ensures Lines(input) == KeptLines(input)
  {
    hide Dropped, LastHeader, Text;
    if input != [] {
      var before, c := input[..|input| - 1], input[|input| - 1];
      assert input[..|before|] == before;
      LinesAreKept(before);
      PendingExact(before);
      PendingTyped(before);
    }
  }

  ghost predicate NoLineLost(input: string) {
    forall q | 0 <= q < |input| :: !LineLost(input, q)
  }

  lemma LostStep(before: string, c: char)
    ensures NoLineLost(before + [c]) <==> NoLineLost(before) && !LineLost(before + [c], |before|)
  {
    hide Text, Dropped, LastHeader;
    var input := before + [c];
    assert forall q | 0 <= q < |before| :: input[..q] == before[..q] && input[q] == before[q];
    if q :| 0 <= q < |before| && LineLost(before, q) {
      assert LineLost(input, q);
    }
    if q :| 0 <= q < |before| && LineLost(input, q) {
      assert LineLost(before, q);
    }
  }

  lemma {:induction false} KeptAreAll(input: string)
    ensures |KeptLines(input)| <= |TextLines(input)|
    ensures KeptLines(input) == TextLines(input) <==> NoLineLost(input)
    ensures |KeptLines(input)| == |TextLines(input)| ==> NoLineLost(input)
  {
    hide Text, NoLineLost;
    if input == [] {
      assert NoLineLost([]) by {
        NothingLost();
      }
    } else {
      var before, c := input[..|input| - 1], input[|input| - 1];
      assert before + [c] == input;
      KeptAreAll(before);
      LostStep(before, c);
    }
  }

  lemma NothingLost()
    ensures NoLineLost([])
  {
  }

  /** The editor hands on exactly the expected lines if and only if no LF ends a text
      whose '$' was dropped. */
  lemma LinesAreTextLines(input: string)
    ensures Lines(input) == TextLines(input) <==> forall q | 0 <= q < |input| :: !LineLost(input, q)
  {
    hide LineLost, KeptLines, TextLines, Lines;
    LinesAreKept(input);
    KeptAreAll(input);
  }

  // ------------------------------------------------- a lost line

  function Letters(n: nat): (text: string)
    ensures |text| == n && forall i | 0 <= i < n :: text[i] == 'a'
  {
    seq(n, _ => 'a')
  }

  /** A '$' and as many letters as leave room for one character only. */
  function Full(): (text: string)
    ensures |text| == LIMIT - 1 && text[0] == HEADER && forall i | 1 <= i < |text| :: text[i] == 'a'
  {
    ['$'] + Letters(8189)
  }

  lemma FullIsHeld()
    ensures Pending(Full()) == Text(Full()) == Full() && Lines(Full()) == TextLines(Full()) == []
  {
    hide Pending, Lines, Text, TextLines;
    var text := Full();
    NothingTyped();
    TypedIsKept([], text);
    assert [] + text == text;
    forall p | 0 <= p < |text| ensures !HeaderLost(text, p) {
      if p == 0 {
        EmptyText();
        assert text[..0] == [];
      }
    }
    SameUntilLost(text);
  }

  /** An input: behind such a text a whole command is typed, and none arrives. */
  lemma CommandIsLost()
    ensures Lines(Full() + ['$', 'b', LF]) == [] && TextLines(Full() + ['$', 'b', LF]) == [['$', 'b', LF]]
  {
    hide Pending, Lines, Text, TextLines, Full;
    FullIsHeld();
    var a, b := Full() + ['$'], Full() + ['$'] + ['b'];
    assert Full() + ['$', 'b', LF] == b + [LF];
    OneKey(Full(), '$');
    OneKey(a, 'b');
    OneKey(b, LF);
    TextStep(Full(), '$');
    TextStep(a, 'b');
    assert Text(b) == ['$', 'b'] && Text(b) + [LF] == ['$', 'b', LF];
    TextLinesStep(Full(), '$');
    TextLinesStep(a, 'b');
    TextLinesStep(b, LF);
  }

  lemma TextLinesStep(before: string, c: char)
    ensures TextLines(before + [c]) ==
            TextLines(before)
            + (if c == LF && Text(before) != [] && |Text(before)| + 1 < LIMIT then [Text(before) + [LF]] else [])
  {
    hide Text;
    assert (before + [c])[..|before|] == before;
  }

  // ------------------------------------------------- in figures

  /** Nothing happens until a '$' is typed. */
  lemma {:induction false} NothingWithoutHeader(before: string, rest: string)
    requires Pending(before) == [] && '$' !in rest
    ensures Pending(before + rest) == [] && Lines(before + rest) == Lines(before)
  {
    if rest == [] {
      assert before + rest == before;
    } else {
      var n := |rest| - 1;
      assert before + rest == (before + rest[..n]) + [rest[n]];
      NothingWithoutHeader(before, rest[..n]);
      OneKey(before + rest[..n], rest[n]);
    }
  }

  /** A character that arrives when 8190 are held empties the buffer. */
  lemma Overflow(before: string, c: char, rest: string)
    requires |Pending(before)| == 8190 && '$' !in rest
    ensures Lines(before + [c] + rest) == Lines(before)
  {
    OneKey(before, c);
    NothingWithoutHeader(before + [c], rest);
  }

  /** The longest command has 8188 characters between '$' and LF; longer ones are dropped
      as a whole. */
  lemma LongestLine(n: nat)
    ensures Lines(['$'] + Letters(n) + ['\n']) == if n <= 8188 then [['$'] + Letters(n) + ['\n']] else []
  {
    var line := ['$'] + Letters(n) + ['\n'];
    NothingTyped();
    if n <= 8188 {
      assert line[..|line| - 1] == ['$'] + Letters(n);
      GoodLineIsEmitted([], line);
      assert [] + line == line;
    } else {
      FullIsHeld();
      var rest := Letters(n - 8189) + ['\n'];
      assert Letters(n) == Letters(8189) + Letters(n - 8189);
      assert line == Full() + [rest[0]] + rest[1..];
      Overflow(Full(), rest[0], rest[1..]);
    }
  }

  /** Backspace undoes the character typed before it, as long as there is room. */
  lemma BackspaceUndoes(before: string, c: char)
    requires 1 <= |Pending(before)| <= 8188 && c != '$' && c != '\n' && c != '\U{0008}'
    ensures Pending(before + [c] + ['\U{0008}']) == Pending(before)
    ensures Lines(before + [c] + ['\U{0008}']) == Lines(before)
  {
    hide Pending, Lines;
    var buf := Pending(before);
    OneKey(before, c);
    OneKey(before + [c], '\U{0008}');
    assert (buf + [c])[..|buf|] == buf;
  }

  /** Typed behind the '$' itself it abandons the command. */
  lemma BackspaceAbandons(before: string)
    requires |Pending(before)| == 1
    ensures Pending(before + ['\U{0008}']) == [] && Lines(before + ['\U{0008}']) == Lines(before)
  {
    OneKey(before, '\U{0008}');
  }

  /** A '$' starts a new command. */
  lemma HeaderRestarts(before: string)
    requires |Pending(before)| <= 8189
    ensures Pending(before + ['$']) == ['$'] && Lines(before + ['$']) == Lines(before)
  {
    OneKey(before, '$');
  }
}
