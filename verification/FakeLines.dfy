/** The "$Name n n n" lines that FakeNotify, FakeResponse and FakeRcvRequest print, read
    back by the console's editor and scanner. */
module FakeLines {
  import opened Base
  import opened LineEditor
  import opened Scanner
  import Net
  import Protocol

  type uint32 = n: nat | n < TWO32

  /** Decimal digits, without leading zeros. */
  function Dec(n: nat): (d: Digits)
    ensures d != []
  {
    var last := [(n % 10 + '0' as int) as char];
    if n < 10 then last else Dec(n / 10) + last
  }

  /** printf's %d given an unsigned int. */
  function PrintD(n: uint32): string {
    if n < TWO31 then Dec(n) else "-" + Dec(TWO32 - n)
  }

  function Fields(fields: seq<uint32>): string {
    if fields == [] then [] else [' '] + PrintD(fields[0]) + Fields(fields[1..])
  }

  function FakeLine(name: string, fields: seq<uint32>): string {
    [HEADER] + name + Fields(fields) + [LF]
  }

  // ------------------------------------------------- the printers

  lemma {:induction false} OneMoreField(fields: seq<uint32>, n: uint32)
    ensures Fields(fields + [n]) == Fields(fields) + [' '] + PrintD(n)
  {
    hide PrintD;
    if fields == [] {
      assert [n][1..] == [];
      assert Fields([n]) == [' '] + PrintD(n) + [];
    } else {
      var first, rest := fields[0], fields[1..];
      OneMoreField(rest, n);
      assert (fields + [n])[1..] == rest + [n];
      calc {
        Fields(fields + [n]);
        [' '] + PrintD(first) + Fields(rest + [n]);
        [' '] + PrintD(first) + (Fields(rest) + [' '] + PrintD(n));
        ([' '] + PrintD(first) + Fields(rest)) + [' '] + PrintD(n);
        Fields(fields) + [' '] + PrintD(n);
      }
    }
  }

  /** One `printf(" %d", …)`. */
  method PrintField(out: string, n: uint32, ghost name: string, ghost fields: seq<uint32>) returns (more: string)
    requires out == [HEADER] + name + Fields(fields)
    ensures more == [HEADER] + name + Fields(fields + [n])
  {
    hide PrintD, Fields;
    more := out + ([' '] + PrintD(n));
    OneMoreField(fields, n);
  }

  /** The loop the three functions share: the data bytes, then the line feed. */
  method PrintData(out: string, ghost name: string, ghost head: seq<uint32>, data: array<byte>) returns (line: string)
    requires out == [HEADER] + name + Fields(head)
    ensures line == FakeLine(name, head + data[..])
  {
    hide PrintD, Fields;
    line := out;
    var i := 0;
    ghost var printed: seq<uint32> := head;
    while i < data.Length
      invariant i <= data.Length && printed == head + data[..i]
      invariant line == [HEADER] + name + Fields(printed)
    {
      line := PrintField(line, data[i], name, printed);
      printed := printed + [data[i]];
      assert data[..i + 1] == data[..i] + [data[i]];
      i := i + 1;
    }
    assert data[..i] == data[..];
    line := line + [LF];
  }

  method FakeNotify(notify: uint32, data: array<byte>) returns (line: string)
    requires data.Length < TWO32
    ensures line == FakeLine("Notify", [notify, data.Length] + data[..])
  {
    hide PrintD;
    line := PrintField("$Notify", notify, "Notify", []);
    line := PrintField(line, data.Length, "Notify", [notify]);
    line := PrintData(line, "Notify", [notify, data.Length], data);
  }

  method FakeResponse(hReq: uint32, data: array<byte>) returns (line: string)
    requires data.Length < TWO32
    ensures line == FakeLine("Response", [hReq, data.Length] + data[..])
  {
    hide PrintD;
    line := PrintField("$Response", hReq, "Response", []);
    line := PrintField(line, data.Length, "Response", [hReq]);
    line := PrintData(line, "Response", [hReq, data.Length], data);
  }

  method FakeRcvRequest(hReq: uint32, reqId: uint32, data: array<byte>) returns (line: string)
    requires data.Length < TWO32
    ensures line == FakeLine("RcvRequest", [hReq, reqId, data.Length] + data[..])
  {
    hide PrintD;
    line := PrintField("$RcvRequest", hReq, "RcvRequest", []);
    line := PrintField(line, reqId, "RcvRequest", [hReq]);
    line := PrintField(line, data.Length, "RcvRequest", [hReq, reqId]);
    line := PrintData(line, "RcvRequest", [hReq, reqId, data.Length], data);
  }

  // ------------------------------------------------- read back

  lemma {:induction false} DecimalOfDec(n: nat)
    ensures Decimal(Dec(n)) == n
  {
    if n >= 10 {
      DecimalOfDec(n / 10);
      assert Dec(n)[..|Dec(n)| - 1] == Dec(n / 10);
    } else {
      assert Dec(n)[..0] == [];
    }
  }

  function Pow10(k: nat): nat {
    if k == 0 then 1 else 10 * Pow10(k - 1)
  }

  lemma {:induction false} DecLength(n: nat, k: nat)
    requires k > 0 && n < Pow10(k)
    ensures |Dec(n)| <= k
  {
    if n >= 10 {
      assert k > 1 by {
        assert Pow10(1) == 10 * Pow10(0);
      }
      DecLength(n / 10, k - 1);
    }
  }

  /** A number is printed without leading zeros. */
  lemma {:induction false} NoLeadingZero(n: nat)
    ensures if n == 0 then Dec(n) == "0" else Dec(n)[0] != '0'
  {
    if n >= 10 {
      NoLeadingZero(n / 10);
      assert Dec(n)[0] == Dec(n / 10)[0];
    }
  }

  lemma LastDigit(n: nat, q: nat, c: char)
    requires q > 0 && '0' <= c <= '9' && n == 10 * q + (c as int - '0' as int)
    ensures Dec(n) == Dec(q) + [c]
  {
  }

  lemma PrintedDigits()
    ensures Dec(255) == "255" && Dec(5) == "5" && Dec(0) == "0" && Dec(1) == "1" && Dec(0x7FFF_FFFF)[0] != '-'
  {
    LastDigit(255, 25, '5');
    LastDigit(25, 2, '5');
    assert IsDigit(Dec(0x7FFF_FFFF)[0]);
    assert Dec(2) == "2" && Dec(5) == "5" && Dec(0) == "0" && Dec(1) == "1";
    hide Dec;
    assert "2" + ['5'] == "25" && "25" + ['5'] == "255";
  }

  /** Some fields as they are printed. */
  lemma PrintedFields()
    ensures Fields([5, 255, 0]) == " 5 255 0" && PrintD(0xFFFF_FFFF) == "-1" && PrintD(0x7FFF_FFFF)[0] != '-'
  {
    PrintedDigits();
    hide Dec;
    var f: seq<uint32> := [5, 255, 0];
    assert f[1..] == [255, 0] && f[1..][1..] == [0] && f[1..][1..][1..] == [];
    assert Fields([0]) == " 0" && Fields([255, 0]) == " 255" + Fields([0]);
  }

  /** What the scanner makes of a printed number. */
  function ReadBack(n: uint32): nat {
    if n < TWO31 then n else if n == TWO31 then TWO31 - 1 else TWO32 - n
  }

  lemma TenDigits(n: nat)
    requires n <= TWO31
    ensures 1 <= |Dec(n)| <= 10
  {
    hide Dec;
    assert Pow10(10) == 10000000000 by {
      assert Pow10(2) == 100 && Pow10(4) == 10000 && Pow10(6) == 1000000 && Pow10(8) == 100000000;
    }
    DecLength(n, 10);
  }

  lemma ValueOfDec(n: nat)
    requires n <= TWO31
    ensures ValueOf(Dec(n)) == [if n < TWO31 then n else TWO31 - 1]
  {
    hide Dec, ValueOf, Decimal;
    TenDigits(n);
    DecimalOfDec(n);
    ShortValue(Dec(n));
  }

  const TAIL := [LF, NUL]

  lemma ReadDigits(n: nat, rest: string)
    requires n <= TWO31 && rest != [] && !IsDigit(rest[0])
    ensures Values(Runs(Dec(n) + rest)) == [if n < TWO31 then n else TWO31 - 1] + Values(After(rest, 0))
  {
    hide Values, Runs, ValueOf, Dec;
    var t, k := Dec(n) + rest, |Dec(n)|;
    ValueOfDec(n);
    assert t[..k] == Dec(n) && t[k] == rest[0] && t[k + 1..] == rest[1..];
    LeadingRun(t, k);
  }

  lemma SkipMinus(t: string)
    ensures Values(Runs(['-'] + t)) == Values(Runs(t))
  {
    hide Values, Runs, ValueOf;
    var s := ['-'] + t;
    assert s[..0] == [] && s[1..] == t;
    LeadingRun(s, 0);
    NoRun();
  }

  /** A printed number in front of a character that is no digit. */
  lemma ReadNumber(n: uint32, rest: string)
    requires rest != [] && !IsDigit(rest[0])
    ensures Values(Runs(PrintD(n) + rest)) == [ReadBack(n)] + Values(After(rest, 0))
  {
    hide Values, Runs, Dec;
    if n < TWO31 {
      ReadDigits(n, rest);
    } else {
      ReadDigits(TWO32 - n, rest);
      SkipMinus(Dec(TWO32 - n) + rest);
      assert PrintD(n) + rest == ['-'] + (Dec(TWO32 - n) + rest);
    }
  }

  lemma NoRun()
    ensures ValueOf([]) == [] && Values([]) == []
  {
  }

  function ReadBacks(fields: seq<uint32>): (r: seq<nat>)
    ensures |r| == |fields|
  {
    seq(|fields|, i requires 0 <= i < |fields| => ReadBack(fields[i]))
  }

  /** The fields as the number loop meets them, just past the character that ended the word. */
  lemma {:induction false} ReadFields(fields: seq<uint32>)
    ensures Values(After(Fields(fields) + TAIL, 0)) == ReadBacks(fields)
  {
    hide Values, Runs, PrintD, ReadBack;
    NoRun();
    if fields != [] {
      var rest := Fields(fields[1..]) + TAIL;
      var s := Fields(fields) + TAIL;
      assert s == [' '] + (PrintD(fields[0]) + rest);
      assert s[1..] == PrintD(fields[0]) + rest;
      ReadFields(fields[1..]);
      ReadNumber(fields[0], rest);
      assert ReadBacks(fields) == [ReadBack(fields[0])] + ReadBacks(fields[1..]);
    }
  }

  /** A word that the console's scanner accepts. */
  predicate IsName(name: string) {
    1 <= |name| < MAX_WORD_LEN && forall i | 0 <= i < |name| :: IsAlnum(name[i])
  }

  /** A name and what follows it, up to the appended NUL. */
  lemma StoryOfLine(name: string, after: string)
    requires IsName(name) && |after| >= 2 && !IsAlnum(after[0]) && after[|after| - 2..] == TAIL
    ensures IsLine([HEADER] + name + after)
    ensures StoryOf([HEADER] + name + after) == Story(name, Values(Runs(after[1..])))
  {
    hide Values, Runs;
    var str := [HEADER] + name + after;
    assert str[|str| - 2..] == TAIL && TAIL[0] == LF && TAIL[1] == NUL;
    assert str[1..] == name + after;
    SpanIs(str[1..], IsAlnum, |name|);
    assert str[|name| + 2..] == after[1..];
  }

  /** Scanning a printed line yields its name and what its fields read back as. */
  lemma ScanPrint(name: string, fields: seq<uint32>)
    requires IsName(name)
    ensures IsLine(FakeLine(name, fields) + [NUL])
    ensures StoryOf(FakeLine(name, fields) + [NUL]) == Story(name, ReadBacks(fields))
  {
    var after := Fields(fields) + TAIL;
    assert FakeLine(name, fields) + [NUL] == [HEADER] + name + after;
    assert !IsAlnum(after[0]) && Ends(after[0]) == (fields == []);
    hide Values, Runs, PrintD, StoryOf, FakeLine, IsLine, IsName, Fields;
    StoryOfLine(name, after);
    ReadFields(fields);
    if fields == [] {
      assert after[1..] == [NUL] by {
        NoFields();
      }
      OnlyNul();
    }
  }

  lemma NoFields()
    ensures Fields([]) == []
  {
  }

  lemma OnlyNul()
    ensures Values(Runs([NUL])) == []
  {
  }

  /** The round trip recovers the fields if and only if each is below 2^31, which is
      where %d starts to print a minus sign that the scanner skips. */
  lemma RoundTrip(name: string, fields: seq<uint32>)
    requires IsName(name)
    ensures IsLine(FakeLine(name, fields) + [NUL])
    ensures StoryOf(FakeLine(name, fields) + [NUL]) == Story(name, fields)
            <==> forall i | 0 <= i < |fields| :: fields[i] < TWO31
  {
    hide StoryOf, FakeLine, IsLine;
    ScanPrint(name, fields);
    if i :| 0 <= i < |fields| && fields[i] >= TWO31 {
      assert ReadBacks(fields)[i] != fields[i];
    } else {
      assert ReadBacks(fields) == fields;
    }
  }

  // ------------------------------------------------- through the editor

  lemma {:induction false} FieldsAreGood(fields: seq<uint32>)
    ensures forall c | c in Fields(fields) :: c == ' ' || c == '-' || IsDigit(c)
  {
    if fields != [] {
      FieldsAreGood(fields[1..]);
    }
  }

  lemma FakeLineIsGood(name: string, fields: seq<uint32>)
    requires IsName(name) && |FakeLine(name, fields)| < LIMIT
    ensures GoodLine(FakeLine(name, fields))
  {
    hide Fields;
    FieldsAreGood(fields);
    var line := FakeLine(name, fields);
    var text, body := line[..|line| - 1], name + Fields(fields);
    assert text == [HEADER] + body;
    assert forall c | c in body :: c in name || c in Fields(fields);
    forall i | 1 <= i < |text| ensures text[i] != HEADER && text[i] != LF && text[i] != BS {
      assert text[i] == body[i - 1] && body[i - 1] in body;
    }
  }

  datatype Printed = Printed(name: string, fields: seq<uint32>)

  predicate Readable(p: Printed) {
    && IsName(p.name) && |FakeLine(p.name, p.fields)| < LIMIT
    && forall i | 0 <= i < |p.fields| :: p.fields[i] < TWO31
  }

  function Transcript(ps: seq<Printed>): (lines: seq<string>)
    ensures |lines| == |ps|
  {
    seq(|ps|, i requires 0 <= i < |ps| => FakeLine(ps[i].name, ps[i].fields))
  }

  /** Printed lines typed into the console, in any number and order, come out of the
      editor one by one, and each scans to the name and the fields it was printed from. */
  lemma ConsoleReadsPrinted(ps: seq<Printed>)
    requires forall i | 0 <= i < |ps| :: Readable(ps[i])
    ensures Lines(Joined(Transcript(ps))) == Transcript(ps)
    ensures forall i | 0 <= i < |ps| ::
              IsLine(Transcript(ps)[i] + [NUL]) && StoryOf(Transcript(ps)[i] + [NUL]) == Story(ps[i].name, ps[i].fields)
  {
    hide FakeLine, GoodLine, StoryOf, IsLine, Lines, Joined;
    forall i | 0 <= i < |ps|
      ensures GoodLine(Transcript(ps)[i])
      ensures IsLine(Transcript(ps)[i] + [NUL]) && StoryOf(Transcript(ps)[i] + [NUL]) == Story(ps[i].name, ps[i].fields)
    {
      assert Readable(ps[i]);
      FakeLineIsGood(ps[i].name, ps[i].fields);
      RoundTrip(ps[i].name, ps[i].fields);
    }
    GoodLinesPass(Transcript(ps));
  }

  /** The three printed names are words the scanner accepts; the longest only just. */
  lemma PrintedNames()
    ensures IsName("Notify") && IsName("Response") && IsName("RcvRequest") && |"RcvRequest"| + 1 == MAX_WORD_LEN
  {
  }

  /** A Request line naming every byte makes readStory, which sends the bytes it read,
      take exactly the console step of the protocol. */
  lemma TypedRequest(s: Protocol.Sys, id: uint32, bytes: seq<byte>, sent: seq<byte>)
    requires Protocol.ValidSys(s) && id < TWO16 && Net.Fits(bytes) && |sent| == |bytes|
    requires var v: seq<uint32> := [id, |bytes|] + bytes;
             forall i | 2 <= i < |v| :: sent[i - 2] == v[i] % 256
    ensures IsLine(FakeLine("Request", [id, |bytes|] + bytes) + [NUL])
    ensures StoryOf(FakeLine("Request", [id, |bytes|] + bytes) + [NUL]) == Story("Request", [id, |bytes|] + bytes)
    ensures var m := FakeRequest(id % TWO16, sent);
            m.Some? && Protocol.Console(s, id, bytes).mgr.net.inbox == s.mgr.net.inbox + [m.value]
  {
    hide FakeLine, StoryOf, IsLine, Protocol.Console, Protocol.ValidSys, Net.Fits, FakeRequest;
    assert sent == bytes by {
      FitsIsShort(bytes);
      SameBytes(id, bytes, sent);
    }
    FitsIsShort(bytes);
    RequestLine(id, bytes);
    ConsoleSends(s, id, bytes);
  }

  lemma FitsIsShort(bytes: seq<byte>)
    requires Net.Fits(bytes)
    ensures |bytes| < TWO16
  {
  }

  lemma ConsoleSends(s: Protocol.Sys, id: nat, bytes: seq<byte>)
    requires Protocol.ValidSys(s) && id < TWO16 && Net.Fits(bytes)
    ensures var m := FakeRequest(id % TWO16, bytes);
            m.Some? && Protocol.Console(s, id, bytes).mgr.net.inbox == s.mgr.net.inbox + [m.value]
  {
  }

  lemma RequestLine(id: uint32, bytes: seq<byte>)
    requires id < TWO16 && |bytes| < TWO16
    ensures IsLine(FakeLine("Request", [id, |bytes|] + bytes) + [NUL])
    ensures StoryOf(FakeLine("Request", [id, |bytes|] + bytes) + [NUL]) == Story("Request", [id, |bytes|] + bytes)
  {
    hide FakeLine, StoryOf, IsLine;
    var fields: seq<uint32> := [id, |bytes|] + bytes;
    assert forall i | 0 <= i < |fields| :: fields[i] < TWO31;
    RoundTrip("Request", fields);
  }

  lemma SameBytes(id: uint32, bytes: seq<byte>, sent: seq<byte>)
    requires |sent| == |bytes| < TWO32
    requires var v: seq<uint32> := [id, |bytes|] + bytes;
             forall i | 2 <= i < |v| :: sent[i - 2] == v[i] % 256
    ensures sent == bytes
  {
    var v: seq<uint32> := [id, |bytes|] + bytes;
    assert forall i | 0 <= i < |sent| :: v[i + 2] == bytes[i];
  }
}
