/** The bounded string builder TStrings. */
module Strings {
  import opened Base

  // ------------------------------------------------- what adding means

  /** How many characters of `str` still fit behind `text`. */
  function Room(size: nat, text: string, str: string): (n: nat)
    ensures n <= |str|
  {
    if |text| + |str| <= size then |str| else if |text| <= size then size - |text| else 0
  }

  function Add(size: nat, text: string, str: string): string {
    text + str[..Room(size, text, str)]
  }

  function LineFeeds(text: string): nat {
    if text == [] then 0 else LineFeeds(text[..|text| - 1]) + (if text[|text| - 1] == LF then 1 else 0)
  }

  /** The positions that hold a line feed. */
  function Breaks(text: string): set<nat> {
    set i: nat | i < |text| && text[i] == '\n'
  }

  /** The line feeds counted are those positions, whatever the text. */
  lemma {:induction false} LineFeedsAreBreaks(text: string)
    ensures LineFeeds(text) == |Breaks(text)|
  {
    if text == [] {
      assert Breaks(text) == {};
    } else {
      var before, n := text[..|text| - 1], |text| - 1;
      LineFeedsAreBreaks(before);
      if text[n] == '\n' {
        assert Breaks(text) == Breaks(before) + {n};
        OneMore(Breaks(before), Breaks(text), n);
      } else {
        assert Breaks(text) == Breaks(before);
      }
    }
  }

  /** Text added behind text adds its own line feeds. */
  lemma {:induction false} LineFeedsAdd(a: string, b: string)
    ensures LineFeeds(a + b) == LineFeeds(a) + LineFeeds(b)
  {
    if b == [] {
      assert a + b == a;
    } else {
      assert (a + b)[..|a + b| - 1] == a + b[..|b| - 1];
      LineFeedsAdd(a, b[..|b| - 1]);
    }
  }

  /** Adding two strings one after the other is adding their concatenation: the same
      text, and return values that add up. */
  lemma AddTwice(size: nat, text: string, a: string, b: string)
    requires |text| <= size
    ensures Add(size, Add(size, text, a), b) == Add(size, text, a + b)
    ensures Room(size, text, a) + Room(size, Add(size, text, a), b) == Room(size, text, a + b)
  {
  }

  function Concat(strs: seq<string>): string {
    if strs == [] then [] else strs[0] + Concat(strs[1..])
  }

  function AddAll(size: nat, text: string, strs: seq<string>): string
    decreases |strs|
  {
    if strs == [] then text else AddAll(size, Add(size, text, strs[0]), strs[1..])
  }

  function Stored(size: nat, text: string, strs: seq<string>): nat
    decreases |strs|
  {
    if strs == [] then 0
    else Room(size, text, strs[0]) + Stored(size, Add(size, text, strs[0]), strs[1..])
  }

  lemma {:induction false} AddAllIsAddConcat(size: nat, text: string, strs: seq<string>)
    requires |text| <= size
    ensures AddAll(size, text, strs) == Add(size, text, Concat(strs))
    ensures Stored(size, text, strs) == Room(size, text, Concat(strs))
    decreases |strs|
  {
    if strs == [] {
      assert text + [] == text;
    } else {
      AddAllIsAddConcat(size, Add(size, text, strs[0]), strs[1..]);
      AddTwice(size, text, strs[0], Concat(strs[1..]));
    }
  }

  /** Over any number of calls on a new builder: it holds as much of everything added as
      fits, from the front, and the return values sum to its length. */
  lemma BuilderIsPrefix(size: nat, strs: seq<string>)
    ensures var all := Concat(strs);
            && AddAll(size, "", strs) == (if |all| <= size then all else all[..size])
            && Stored(size, "", strs) == |AddAll(size, "", strs)|
  {
    AddAllIsAddConcat(size, "", strs);
    assert Concat(strs)[..|Concat(strs)|] == Concat(strs);
  }

  lemma Counted(was: string, str: string, res: nat)
    requires res <= |str|
    ensures LineFeeds(was + str[..res]) == LineFeeds(was) + |Breaks(str[..res])|
    ensures LineFeeds(was + str[..res]) == |Breaks(was + str[..res])|
  {
    LineFeedsAdd(was, str[..res]);
    LineFeedsAreBreaks(str[..res]);
    LineFeedsAreBreaks(was + str[..res]);
  }

  // ------------------------------------------------- the builder

  class TStrings {
    var start: array<char>
    var index: nat
    var size: nat
    var line: nat

    ghost predicate Valid()
      reads this, start
    {
      && start.Length == size >= 1 && index <= size
      && NUL !in start[..index]
      && (index < size ==> start[index] == NUL)
      && line == 1 + LineFeeds(start[..index])
    }

    ghost function Contents(): string
      reads this, start
      requires Valid()
    {
      start[..index]
    }

    /** CreateStrings. */
    constructor (capacity: nat)
      requires capacity >= 1
      ensures Valid() && fresh(start) && size == capacity && Contents() == [] && line == 1
    {
      start := new char[capacity];
      index, size, line := 0, capacity, 1;
      new;
      start[0] := NUL;
    }

    /** AddString; `str` is a C string, its terminator is not part of it. */
    method AddString(str: string) returns (res: nat)
      requires Valid() && NUL !in str
      modifies this`index, this`line, start
      ensures Valid()
      ensures Contents() == Add(size, old(Contents()), str) && res == Room(size, old(Contents()), str)
      ensures line == 1 + |Breaks(Contents())| && line == old(line) + |Breaks(str[..res])|
    {
      res := 0;
      ghost var was := start[..index];
      while true
        invariant res <= |str| && index == old(index) + res <= size == start.Length
        invariant start[..index] == old(start[..index]) + str[..res]
        invariant NUL !in start[..index] && line == 1 + LineFeeds(start[..index])
        decreases |str| - res
      {
        if index >= size {
          Counted(was, str, res);
          return;
        }
        ghost var text := start[..index];
        var c := if res < |str| then str[res] else NUL;
        start[index] := c;
        index := index + 1;
        assert start[..index] == text + [c];
        assert start[..index][..index - 1] == text;
        if c == LF {
          line := line + 1;
        } else if c == NUL {
          index := index - 1;
          Counted(was, str, res);
          return;
        }
        res := res + 1;
      }
    }
  }
}
