/** The debug console's line scanner, readStory: "$Word n n n" to a command. */
module Scanner {
  import opened Base
  import opened Net

  const MAX_WORD_LEN := 11

  const MSG_HEADER := ["Request", "Inl", "Outl", "Kill"]

  predicate IsDigit(c: char) {
    '0' <= c <= '9'
  }

  /** isalnum in the C locale. */
  predicate IsAlnum(c: char) {
    IsDigit(c) || 'a' <= c <= 'z' || 'A' <= c <= 'Z'
  }

  predicate AllDigits(s: string) {
    forall i | 0 <= i < |s| :: IsDigit(s[i])
  }

  type Digits = s: string | AllDigits(s)

  predicate Ends(c: char) {
    c == NUL || c == LF
  }

  // ------------------------------------------------- what a line says

  /** The length of the longest prefix of characters of one kind. */
  function Span(s: string, kind: char -> bool): (n: nat)
    ensures n <= |s|
    ensures forall i | 0 <= i < n :: kind(s[i])
    ensures n < |s| ==> !kind(s[n])
  {
    if s == [] || !kind(s[0]) then 0 else 1 + Span(s[1..], kind)
  }

  lemma SpanIs(s: string, kind: char -> bool, n: nat)
    requires n <= |s| && (forall i | 0 <= i < n :: kind(s[i])) && (n < |s| ==> !kind(s[n]))
    ensures Span(s, kind) == n
  {
  }

  /** The maximal runs of digits before the first LF or NUL, in order. */
  function Runs(s: string): (runs: seq<Digits>)
    ensures forall i | 0 <= i < |runs| :: runs[i] != []
  {
    var n := Span(s, IsDigit);
    (if n == 0 then [] else [s[..n]]) + (if n == |s| || Ends(s[n]) then [] else Runs(s[n + 1..]))
  }

  /** The number a run of digits denotes. */
  function Decimal(digits: Digits): (n: nat)
  {
    if digits == [] then 0
    else 10 * Decimal(digits[..|digits| - 1]) + (digits[|digits| - 1] as int - '0' as int)
  }

  /** atoi on the 32-bit target: glibc's strtol saturates. */
  function Atoi(digits: Digits): nat
  {
    if Decimal(digits) < TWO31 then Decimal(digits) else TWO31 - 1
  }

  /** Where the digits that survive start: whole elevens of a run are thrown away. */
  function Kept(run: Digits): (k: nat)
    ensures k <= |run| && |run| - k == |run| % MAX_WORD_LEN
  {
    |run| - |run| % MAX_WORD_LEN
  }

  /** What the scanner stores for one run of digits. */
  function ValueOf(run: Digits): seq<nat>
  {
    if Kept(run) == |run| then [] else [Atoi(run[Kept(run)..])]
  }

  function Values(runs: seq<Digits>): seq<nat>
  {
    if runs == [] then [] else ValueOf(runs[0]) + Values(runs[1..])
  }

  function Decimals(runs: seq<Digits>): seq<nat>
  {
    if runs == [] then [] else [Decimal(runs[0])] + Decimals(runs[1..])
  }

  datatype Story = Ignored | Story(name: string, values: seq<nat>)

  /** A line as readStory is given it: LF, then the appended NUL. */
  predicate IsLine(str: string) {
    |str| >= 2 && str[|str| - 1] == NUL && str[|str| - 2] == LF
  }

  function StoryOf(str: string): Story
    requires IsLine(str)
  {
    var w := Span(str[1..], IsAlnum);
    if str[0] != '$' || w == 0 || w >= MAX_WORD_LEN then Ignored
    else Story(str[1..w + 1], Values(Runs(str[w + 2..])))
  }

  // ------------------------------------------------- when numbers are read right

  /** A run is read right: its length is no multiple of eleven, the elevens thrown away
      are zeros, and the value fits an int. */
  predicate Legible(run: Digits)
  {
    && |run| % MAX_WORD_LEN != 0
    && Decimal(run[..Kept(run)]) == 0
    && Decimal(run) < TWO31
  }

  lemma {:induction false} DecimalOfPair(a: Digits, b: Digits)
    ensures Decimal(a) == 0 ==> Decimal(a + b) == Decimal(b)
    ensures Decimal(a) > 0 ==> Decimal(a + b) > Decimal(b)
  {
    if b == [] {
      assert a + b == a;
    } else {
      assert (a + b)[..|a + b| - 1] == a + b[..|b| - 1];
      DecimalOfPair(a, b[..|b| - 1]);
    }
  }

  lemma ReadRight(run: Digits)
    ensures ValueOf(run) == [Decimal(run)] <==> Legible(run)
  {
    var k := Kept(run);
    assert run == run[..k] + run[k..];
    DecimalOfPair(run[..k], run[k..]);
  }

  lemma {:induction false} NoMoreValues(runs: seq<Digits>)
    ensures |Values(runs)| <= |runs| && |Decimals(runs)| == |runs|
  {
    if runs != [] {
      NoMoreValues(runs[1..]);
    }
  }

  /** The scanner returns exactly the values of the maximal digit runs in order if and
      only if every run is legible. */
  lemma {:induction false} NumbersAreReadRight(runs: seq<Digits>)
    ensures Values(runs) == Decimals(runs) <==> forall i | 0 <= i < |runs| :: Legible(runs[i])
  {
    hide Legible, ValueOf, Decimal;
    if runs != [] {
      var tail := runs[1..];
      NumbersAreReadRight(tail);
      NoMoreValues(runs);
      NoMoreValues(tail);
      ReadRight(runs[0]);
      OneOrNone(runs[0]);
      assert forall i | 0 <= i < |tail| :: tail[i] == runs[i + 1];
      assert forall i | 1 <= i < |runs| :: runs[i] == tail[i - 1];
      if Values(runs) == Decimals(runs) {
        assert ValueOf(runs[0]) != [];
        assert Values(runs)[0] == ValueOf(runs[0])[0] && Values(runs)[1..] == Values(tail);
        assert Decimals(runs)[0] == Decimal(runs[0]) && Decimals(runs)[1..] == Decimals(tail);
        assert ValueOf(runs[0]) == [Decimal(runs[0])];
      }
    }
  }

  lemma OneOrNone(run: Digits)
    ensures |ValueOf(run)| <= 1
  {
  }

  /** In particular for runs of at most ten digits below 2^31. */
  lemma ShortRunsAreLegible(run: Digits)
    requires 1 <= |run| <= 10 && Decimal(run) < TWO31
    ensures Legible(run)
  {
    hide Decimal;
    assert run[..Kept(run)] == [];
    NoDigits();
  }

  lemma NoDigits()
    ensures Decimal([]) == 0
  {
  }

  // ------------------------------------------------- a line, in characters

  lemma RunsFrom(s: string, n: nat)
    requires n <= |s| && AllDigits(s[..n]) && (n < |s| ==> !IsDigit(s[n]))
    ensures Runs(s) == (if n == 0 then [] else [s[..n]]) + (if n == |s| || Ends(s[n]) then [] else Runs(s[n + 1..]))
  {
    assert forall i | 0 <= i < n :: s[i] == s[..n][i];
    SpanIs(s, IsDigit, n);
  }

  /** Digits are one run. */
  lemma DigitsAreOneRun(s: string)
    requires s != [] && forall i | 0 <= i < |s| :: '0' <= s[i] <= '9'
    ensures Runs(s) == [s]
  {
    assert s[..|s|] == s;
    RunsFrom(s, |s|);
  }

  lemma SpanOfFront(a: string, rest: string)
    requires rest != [] && !IsDigit(rest[0])
    ensures Span(a + rest, IsDigit) == Span(a, IsDigit)
  {
    var n := Span(a, IsDigit);
    assert forall i | 0 <= i < n :: (a + rest)[i] == a[i];
    SpanIs(a + rest, IsDigit, n);
  }

  /** The first run of a text is that of any front part that goes beyond it. */
  lemma FrontRuns(a: string, s: string, n: nat)
    requires n == Span(a, IsDigit) == Span(s, IsDigit) && n < |a| <= |s| && s[..|a|] == a
    ensures var head: seq<Digits> := if n == 0 then [] else [s[..n]];
            && Runs(a) == head + (if Ends(a[n]) then [] else Runs(a[n + 1..]))
            && Runs(s) == head + (if Ends(a[n]) then [] else Runs(s[n + 1..]))
  {
    RunsFrom(a, n);
    RunsFrom(s, n);
    hide Runs, Span, Ends;
    assert s[..n] == a[..n] && s[n] == a[n];
  }

  lemma LastRun(a: string, c: char, b: string)
    requires Span(a, IsDigit) == |a| && !IsDigit(c)
    ensures var head: seq<Digits> := if a == [] then [] else [a];
            Runs(a) == head && Runs(a + [c] + b) == head + (if Ends(c) then [] else Runs(b))
  {
    var s, n := a + [c] + b, |a|;
    assert s == a + ([c] + b);
    SpanOfFront(a, [c] + b);
    RunsFrom(a, n);
    RunsFrom(s, n);
    hide Runs, Span, Ends;
    assert s[..n] == a == a[..n] && s[n] == c && s[n + 1..] == b;
  }

  /** Any character that is no digit separates runs, except LF and NUL, which end the
      line. */
  lemma {:induction false} Separator(a: string, c: char, b: string)
    requires !('0' <= c <= '9')
    ensures c == '\n' || c == '\0' ==> Runs(a + [c] + b) == Runs(a)
    ensures c != '\n' && c != '\0' && '\n' !in a && '\0' !in a ==> Runs(a + [c] + b) == Runs(a) + Runs(b)
    decreases |a|
  {
    hide Runs, Span;
    var n := Span(a, IsDigit);
    if n == |a| {
      LastRun(a, c, b);
    } else {
      var s, rest := a + [c] + b, a[n + 1..];
      assert s == a + ([c] + b) && s[..|a|] == a && s[n + 1..] == rest + [c] + b;
      SpanOfFront(a, [c] + b);
      FrontRuns(a, s, n);
      assert a[n] in a && forall x | x in rest :: x in a;
      Separator(rest, c, b);
    }
  }

  /** Letters and digits as they are typed. */
  predicate IsWord(name: string) {
    forall i | 0 <= i < |name| :: '0' <= name[i] <= '9' || 'a' <= name[i] <= 'z' || 'A' <= name[i] <= 'Z'
  }

  /** '$' and a word of one to ten letters and digits make a command; no word or a longer
      one is ignored, and so is a line without the '$'. */
  lemma CommandWord(name: string, c: char, rest: string)
    requires IsWord(name) && !IsWord([c]) && IsLine(['$'] + name + [c] + rest)
    ensures StoryOf(['$'] + name + [c] + rest) ==
            if 1 <= |name| <= 10 then Story(name, Values(Runs(rest))) else Ignored
  {
    hide Values, Runs;
    var str := ['$'] + name + [c] + rest;
    assert [c][0] == c && str[1..] == name + [c] + rest;
    SpanIs(str[1..], IsAlnum, |name|);
    assert str[|name| + 2..] == rest;
  }

  lemma OneShortRun(s: string, v: nat)
    requires 1 <= |s| <= 10 && (forall i | 0 <= i < |s| :: '0' <= s[i] <= '9') && Decimal(s) == v < TWO31
    ensures Runs(s) == [s] && Values([s]) == [v]
  {
    hide Decimal, Runs;
    DigitsAreOneRun(s);
    ShortRunsAreLegible(s);
    ReadRight(s);
    assert [s][1..] == [];
  }

  lemma {:induction false} OneMoreDigit(s: Digits, c: char)
    requires '0' <= c <= '9'
    ensures Decimal(s + [c]) == 10 * Decimal(s) + (c as int - 48)
  {
    assert (s + [c])[..|s|] == s;
  }

  lemma Numbers()
    ensures Decimal("769") == 769 && Decimal("2") == 2
  {
    OneMoreDigit("", '7');
    OneMoreDigit("7", '6');
    OneMoreDigit("76", '9');
    OneMoreDigit("", '2');
    NoDigits();
    hide Decimal;
    assert "76" + ['9'] == "769" && "7" + ['6'] == "76" && "" + ['7'] == "7" && "" + ['2'] == "2";
  }

  /** Two numbers separated by a tab, up to the end of the line. */
  lemma TabbedNumbers(rest: string)
    requires rest == "769" + ['\t'] + ("2" + ['\n'] + "\0")
    ensures Values(Runs(rest)) == [769, 2]
  {
    Numbers();
    hide Runs, Decimal, Values;
    OneShortRun("769", 769);
    OneShortRun("2", 2);
    Separator("769", '\t', "2" + ['\n'] + "\0");
    Separator("2", '\n', "\0");
    assert Values(["769"] + ["2"]) == Values(["769"]) + Values(["2"]) by {
      ValuesAppend(["769"], ["2"]);
    }
  }

  lemma {:induction false} ValuesAppend(a: seq<Digits>, b: seq<Digits>)
    ensures Values(a + b) == Values(a) + Values(b)
  {
    hide ValueOf;
    if a == [] {
      assert a + b == b;
    } else {
      assert (a + b)[1..] == a[1..] + b;
      ValuesAppend(a[1..], b);
    }
  }

  /** An input: a request line whose numbers are separated by a tab. */
  lemma TabbedLine()
    ensures var str := "$Request 769\t2\n\0"; IsLine(str) && StoryOf(str) == Story("Request", [769, 2])
  {
    var rest := "769" + ['\t'] + ("2" + ['\n'] + "\0");
    TabbedNumbers(rest);
    TabbedText(rest);
    hide *;
    CommandWord("Request", ' ', rest);
  }

  lemma TabbedText(rest: string)
    requires rest == "769" + ['\t'] + ("2" + ['\n'] + "\0")
    ensures "$Request 769\t2\n\0" == ['$'] + "Request" + [' '] + rest && IsLine("$Request 769\t2\n\0")
    ensures IsWord("Request") && !IsWord([' ']) && |"Request"| == 7
  {
    assert [' '][0] == ' ';
  }

  // ------------------------------------------------- taking runs apart

  function After(s: string, n: nat): seq<Digits>
    requires n <= |s|
  {
    if n == |s| || Ends(s[n]) then [] else Runs(s[n + 1..])
  }

  /** The values of a text are those of its leading run and of what follows. */
  lemma LeadingRun(s: string, n: nat)
    requires n <= |s| && AllDigits(s[..n]) && (n < |s| ==> !IsDigit(s[n]))
    ensures Values(Runs(s)) == ValueOf(s[..n]) + Values(After(s, n))
  {
    assert forall i | 0 <= i < n :: s[i] == s[..n][i];
    SpanIs(s, IsDigit, n);
    if n == 0 {
      assert Runs(s) == After(s, n);
    } else {
      assert ([s[..n]] + After(s, n))[1..] == After(s, n);
    }
  }

  lemma ElevenMore(run: Digits)
    requires |run| >= MAX_WORD_LEN
    ensures AllDigits(run[MAX_WORD_LEN..]) && ValueOf(run) == ValueOf(run[MAX_WORD_LEN..])
  {
    var rest := run[MAX_WORD_LEN..];
    assert forall i | 0 <= i < |rest| :: rest[i] == run[i + MAX_WORD_LEN];
    assert run[Kept(run)..] == rest[Kept(rest)..];
  }

  lemma DigitsJoin(s: string, k: nat, n: nat)
    requires k + n <= |s| && AllDigits(s[..k]) && AllDigits(s[k..][..n])
    ensures AllDigits(s[..k + n]) && s[..k + n][k..] == s[k..][..n]
  {
    assert forall i | 0 <= i < k :: s[i] == s[..k][i];
    assert forall i | k <= i < k + n :: s[i] == s[k..][..n][i - k];
  }

  /** Eleven digits in a row leave no trace. */
  lemma DropEleven(s: string)
    requires |s| >= MAX_WORD_LEN && AllDigits(s[..MAX_WORD_LEN])
    ensures Values(Runs(s)) == Values(Runs(s[MAX_WORD_LEN..]))
  {
    hide Values, Runs, ValueOf, AllDigits;
    var rest := s[MAX_WORD_LEN..];
    var n := Span(rest, IsDigit);
    AllDigitsSpan(rest);
    DigitsJoin(s, MAX_WORD_LEN, n);
    hide Span, IsDigit, Kept;
    LeadingRun(s, MAX_WORD_LEN + n);
    LeadingRun(rest, n);
    ElevenMore(s[..MAX_WORD_LEN + n]);
    assert After(s, MAX_WORD_LEN + n) == After(rest, n) by {
      assert n < |rest| ==> s[MAX_WORD_LEN + n + 1..] == rest[n + 1..];
    }
  }

  lemma AllDigitsSpan(s: string)
    ensures AllDigits(s[..Span(s, IsDigit)])
  {
  }

  lemma ShortValue(run: Digits)
    requires |run| < MAX_WORD_LEN
    ensures ValueOf(run) == if run == [] then [] else [Atoi(run)]
  {
  }

  /** Fewer than eleven digits and the character after them. */
  lemma TakeRun(s: string, n: nat)
    requires n < MAX_WORD_LEN && n < |s| && AllDigits(s[..n]) && !IsDigit(s[n])
    ensures Values(Runs(s)) == (if n == 0 then [] else [Atoi(s[..n])]) + Values(After(s, n))
  {
    hide Values, Runs, ValueOf, AllDigits, Atoi;
    LeadingRun(s, n);
    ShortValue(s[..n]);
  }

  // ------------------------------------------------- the scanner itself

  /** The word loop: up to eleven characters into wd; the character that ends the word
      is consumed whatever it is. */
  method ScanWord(str: string, wd: array<char>) returns (len: nat, pc: nat)
    requires IsLine(str) && str[0] == '$' && wd.Length == MAX_WORD_LEN
    modifies wd
    ensures len == if Span(str[1..], IsAlnum) < MAX_WORD_LEN then Span(str[1..], IsAlnum) else MAX_WORD_LEN
    ensures len < MAX_WORD_LEN ==> pc == len + 2 && pc < |str| && wd[..len] == str[1..len + 1]
  {
    pc, len := 1, 0;
    while len < MAX_WORD_LEN
      invariant len <= MAX_WORD_LEN && pc == len + 1 && pc <= |str| - 2
      invariant wd[..len] == str[1..pc]
      invariant forall i | 1 <= i < pc :: IsAlnum(str[i])
    {
      var c := str[pc];
      pc := pc + 1;
      if !IsAlnum(c) {
        SpanIs(str[1..], IsAlnum, len);
        return;
      }
      wd[len] := c;
      len := len + 1;
    }
    assert Span(str[1..], IsAlnum) >= len;
  }

  /** The inner loop: copies at most eleven digits into wd. */
  method ScanDigits(str: string, from: nat, wd: array<char>) returns (i: nat)
    requires IsLine(str) && from < |str| && wd.Length == MAX_WORD_LEN
    modifies wd
    ensures i <= MAX_WORD_LEN && from + i < |str|
    ensures wd[..i] == str[from..from + i] && AllDigits(wd[..i])
    ensures i < MAX_WORD_LEN ==> !IsDigit(str[from + i])
  {
    i := 0;
    while i < MAX_WORD_LEN && IsDigit(str[from + i])
      invariant i <= MAX_WORD_LEN && from + i < |str|
      invariant wd[..i] == str[from..from + i] && AllDigits(wd[..i])
    {
      wd[i] := str[from + i];
      i := i + 1;
    }
  }

  /** The values still to come from position pc on. */
  function ToCome(str: string, pc: nat): seq<nat>
    requires pc <= |str|
  {
    Values(Runs(str[pc..]))
  }

  predicate NoEnds(str: string, from: nat, to: nat)
    requires from <= to <= |str|
  {
    forall i | from <= i < to :: !Ends(str[i])
  }

  lemma DigitsEndNothing(str: string, from: nat, pc: nat, i: nat)
    requires from <= pc && pc + i <= |str| && NoEnds(str, from, pc) && AllDigits(str[pc..pc + i])
    ensures NoEnds(str, from, pc + i)
  {
    assert forall k | pc <= k < pc + i :: str[k] == str[pc..pc + i][k - pc];
  }

  /** One turn of the number loop that reads eleven digits. */
  lemma ElevenTurn(str: string, pc: nat)
    requires pc + MAX_WORD_LEN <= |str| && AllDigits(str[pc..pc + MAX_WORD_LEN])
    ensures ToCome(str, pc) == ToCome(str, pc + MAX_WORD_LEN)
  {
    hide Values, Runs, AllDigits;
    var s := str[pc..];
    assert s[..MAX_WORD_LEN] == str[pc..pc + MAX_WORD_LEN] && s[MAX_WORD_LEN..] == str[pc + MAX_WORD_LEN..];
    DropEleven(s);
  }

  /** One turn that reads fewer than eleven digits and the character after them. */
  lemma RunTurn(str: string, pc: nat, i: nat)
    requires i < MAX_WORD_LEN && pc + i < |str| && AllDigits(str[pc..pc + i]) && !IsDigit(str[pc + i])
    ensures ToCome(str, pc) == (if i == 0 then [] else [Atoi(str[pc..pc + i])])
                               + (if Ends(str[pc + i]) then [] else ToCome(str, pc + i + 1))
  {
    hide Values, Runs, AllDigits, IsDigit, Atoi, Ends;
    var s := str[pc..];
    assert s[..i] == str[pc..pc + i] && s[i] == str[pc + i] && s[i + 1..] == str[pc + i + 1..];
    TakeRun(s, i);
    NoValues();
  }

  /** The values stored so far, those still to come, and the rest of the old array. */
  ghost predicate Filled(param: seq<nat>, was: seq<nat>, stored: seq<nat>, todo: seq<nat>, all: seq<nat>) {
    stored + todo == all && |stored| <= |was| && param == stored + was[|stored|..]
  }

  /** The next value to come moves to the values stored. */
  lemma StoreOne(param: seq<nat>, was: seq<nat>, stored: seq<nat>, v: nat, todo: seq<nat>, all: seq<nat>)
    requires Filled(param, was, stored, [v] + todo, all) && |all| <= |was|
    ensures |stored| < |param| && Filled(param[|stored| := v], was, stored + [v], todo, all)
  {
    assert (stored + [v]) + todo == stored + ([v] + todo);
    assert param[|stored| := v] == (stored + [v]) + was[|stored| + 1..];
  }

  /** The number loop: fills param from the front and stops at the first LF or NUL it
      meets, at the latest at the appended NUL. */
  method ScanNumbers(str: string, start: nat, wd: array<char>, param: array<nat>) returns (cnt: nat, pc: nat)
    requires IsLine(str) && start < |str| && wd.Length == MAX_WORD_LEN
    requires |Values(Runs(str[start..]))| <= param.Length
    modifies wd, param
    ensures cnt == |Values(Runs(str[start..]))|
    ensures param[..] == Values(Runs(str[start..])) + old(param[..])[cnt..]
    ensures start < pc <= |str| && Ends(str[pc - 1]) && NoEnds(str, start, pc - 1)
  {
    hide Values, Runs, AllDigits, IsDigit, Atoi, Span, ValueOf;
    pc, cnt := start, 0;
    ghost var was, all := param[..], ToCome(str, start);
    ghost var stored: seq<nat>, todo := [], all;
    assert Filled(param[..], was, stored, todo, all);
    hide ToCome, Filled;
    while true
      invariant start <= pc < |str| && cnt == |stored| && todo == ToCome(str, pc)
      invariant Filled(param[..], was, stored, todo, all) && NoEnds(str, start, pc)
      decreases |str| - pc
    {
      var i := ScanDigits(str, pc, wd);
      DigitsEndNothing(str, start, pc, i);
      if i == MAX_WORD_LEN {
        ElevenTurn(str, pc);
        pc := pc + i;
      } else {
        RunTurn(str, pc, i);
        var c := str[pc + i];
        todo := if Ends(c) then [] else ToCome(str, pc + i + 1);
        if i > 0 {
          StoreOne(param[..], was, stored, Atoi(wd[..i]), todo, all);
          param[cnt] := Atoi(wd[..i]);
          stored := stored + [param[cnt]];
          cnt := cnt + 1;
        }
        pc := pc + i + 1;
        if Ends(c) {
          break;
        }
      }
    }
    AllStored(param[..], was, stored, all);
  }

  lemma AllStored(param: seq<nat>, was: seq<nat>, stored: seq<nat>, all: seq<nat>)
    requires Filled(param, was, stored, [], all)
    ensures stored == all && |all| <= |was| && param == all + was[|all|..]
  {
  }

  lemma NoValues()
    ensures Values([]) == []
  {
  }

  // ------------------------------------------------- the command

  /** FakeRequest: a short request to the manager, with no sequence number. */
  function FakeRequest(id: nat, bytes: seq<byte>): (sent: Option<Message>)
    requires id < TWO16
  {
    if Fits(bytes) then Some(ShortMessage(MSG_TYPE_SHORT_REQUEST, 0, id, bytes)) else None
  }

  /** The Request command: identifier, size and data bytes taken from the parameters;
      the data beyond the `cnt` numbers given is whatever the stack held. */
  method SendFakeRequest(param: array<nat>, cnt: nat) returns (sent: Option<Message>)
    requires cnt <= param.Length == PARAM_NUM + 2
    ensures sent.Some? <==> param[1] <= 500
    ensures sent.Some? ==>
              && sent.value == Message(3, 0, param[0] % 65536, param[1], sent.value.data)
              && |sent.value.data| == param[1] && sent == FakeRequest(param[0] % 65536, sent.value.data)
              && forall i | 2 <= i < cnt && i < param[1] + 2 :: sent.value.data[i - 2] == param[i] % 256
  {
    var buf := new byte[PARAM_NUM];
    var i := 0;
    while i + 2 < cnt
      invariant i + 2 <= cnt || i == 0
      invariant forall k | 2 <= k < i + 2 :: buf[k - 2] == param[k] % 256
    {
      buf[i] := param[i + 2] % 256;
      i := i + 1;
    }
    sent := None;
    if param[1] + HDR_SIZE <= MAX_MESSAGE_SIZE {
      sent := FakeRequest(param[0] % TWO16, buf[..param[1]]);
    }
  }

  /** readStory on a line whose word, if it has one, is in the command table and whose
      numbers fit the parameter array.  The identifier and the size come from the first
      two parameters even when the line gave fewer numbers. */
  method ReadStory(str: string, param: array<nat>) returns (sent: Option<Message>)
    requires IsLine(str) && param.Length == PARAM_NUM + 2
    requires StoryOf(str).Story? ==> StoryOf(str).name in MSG_HEADER && |StoryOf(str).values| <= param.Length
    modifies param
    ensures StoryOf(str).Ignored? ==> sent.None? && param[..] == old(param[..])
    ensures StoryOf(str).Story? ==>
              var v := StoryOf(str).values;
              && param[..] == v + old(param[..])[|v|..]
              && (sent.Some? <==> StoryOf(str).name == "Request" && param[1] <= 500)
              && (sent.Some? ==>
                    && sent.value == Message(3, 0, param[0] % 65536, param[1], sent.value.data)
                    && |sent.value.data| == param[1] && sent == FakeRequest(param[0] % 65536, sent.value.data)
                    && forall i | 2 <= i < |v| && i < param[1] + 2 :: sent.value.data[i - 2] == v[i] % 256)
  {
    hide Values, Runs, Span, FakeRequest;
    sent := None;
    if str[0] != '$' {
      return;
    }
    var wd := new char[MAX_WORD_LEN];
    var len, pc := ScanWord(str, wd);
    if len == 0 || len == MAX_WORD_LEN {
      return;
    }
    var word := wd[..len];
    ghost var v := StoryOf(str).values;
    var cmd := 0;
    while MSG_HEADER[cmd] != word
      invariant cmd < |MSG_HEADER| && word !in MSG_HEADER[..cmd]
      decreases |MSG_HEADER| - cmd
    {
      cmd := cmd + 1;
    }
    var cnt, _ := ScanNumbers(str, pc, wd, param);
    assert param[..] == v + old(param[..])[|v|..];
    if cmd == 0 {
      assert forall i | 0 <= i < cnt :: v[i] == param[i];
      sent := SendFakeRequest(param, cnt);
    }
  }
}
