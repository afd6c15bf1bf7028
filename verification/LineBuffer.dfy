/** Trimming the ends of lines inside a text buffer, in place. */
module LineBuffer {

  predicate IsBlank(c: char) {
    c == ' ' || c == '\t' || c == '\r'
  }

  /** A line without the blanks at its end. */
  function TrimLine(s: string): (r: string)
    ensures |r| <= |s|
  {
    if s != [] && IsBlank(s[|s| - 1]) then TrimLine(s[..|s| - 1]) else s
  }

  /** The position of the first newline from a position on, or the length. */
  function NewlineFrom(s: string, from: nat): (k: nat)
    requires from <= |s|
    ensures from <= k <= |s| && (k < |s| ==> s[k] == '\n')
    ensures forall i :: from <= i < k ==> s[i] != '\n'
    decreases |s| - from
  {
    if from == |s| || s[from] == '\n' then from else NewlineFrom(s, from + 1)
  }

  /** The lines of a text: what stands between newlines, so one more than there are
      newlines. */
  function Split(s: string): (lines: seq<string>)
    ensures |lines| > 0
    ensures forall i :: 0 <= i < |lines| ==> '\n' !in lines[i]
  {
    var k := NewlineFrom(s, 0);
    if k == |s| then [s] else [s[..k]] + Split(s[k + 1..])
  }

  function TrimLines(lines: seq<string>): (r: seq<string>)
    ensures |r| == |lines| && forall i :: 0 <= i < |r| ==> r[i] == TrimLine(lines[i])
  {
    if lines == [] then [] else [TrimLine(lines[0])] + TrimLines(lines[1..])
  }

  function Join(lines: seq<string>): string
    requires |lines| > 0
  {
    if |lines| == 1 then lines[0] else lines[0] + "\n" + Join(lines[1..])
  }

  function EndInNewline(s: string): string {
    if s != [] && s[|s| - 1] == '\n' then s else s + "\n"
  }

  /** Split at newlines, trim every line, join again and end in a newline; an empty text
      stays empty. */
  function Trimmed(s: string): string {
    if s == "" then "" else EndInNewline(Join(TrimLines(Split(s))))
  }

  /** A blank at the end of a line is trimmed; without one the line stays as it is. */
  lemma OneBlank(text: string, from: nat, to: nat)
    requires from <= to <= |text|
    ensures TrimLine(text[from..to]) ==
      if from < to && IsBlank(text[to - 1]) then TrimLine(text[from..to - 1]) else text[from..to]
  {
    if from < to {
      assert text[from..to][..to - from - 1] == text[from..to - 1];
    }
  }

  class Buffer {
    var data: array<char>
    var size: nat

    ghost predicate Valid()
      reads this
    {
      size <= data.Length
    }

    ghost function Contents(): string
      reads this, data
      requires Valid()
    {
      data[..size]
    }

    constructor (text: string)
      ensures Valid() && fresh(data) && Contents() == text
    {
      data := new char[|text|](i requires 0 <= i < |text| => text[i]);
      size := |text|;
    }

    /** `resize` by one and a store to the new last place; a full buffer moves. */
    method Grow(c: char)
      requires Valid()
      modifies this, data
      ensures Valid() && Contents() == old(Contents()) + [c]
      ensures data == old(data) || fresh(data)
    {
      if size == data.Length {
        var oldData, oldSize := data, size;
        data := new char[size + 1](i requires 0 <= i <= oldSize reads oldData => if i < oldData.Length then oldData[i] else c);
        assert data[..size] == old(Contents());
      } else {
        data[size] := c;
      }
      size := size + 1;
      assert data[..size] == data[..size - 1] + [data[size - 1]];
    }

    /** The end of the line that starts at `read`, and where its blanks begin. */
    method FindLine(read: nat, ghost text: string) returns (newline: nat, lineEnd: nat)
      requires Valid() && read <= size == |text|
      requires forall i :: read <= i < size ==> data[i] == text[i]
      ensures newline == NewlineFrom(text, read)
      ensures read <= lineEnd <= newline && TrimLine(text[read..newline]) == text[read..lineEnd]
    {
      hide TrimLine;
      newline := read;
      while newline < size && data[newline] != '\n'
        invariant read <= newline <= size && NewlineFrom(text, read) == NewlineFrom(text, newline)
      {
        newline := newline + 1;
      }
      lineEnd := newline;
      while lineEnd > read && IsBlank(data[lineEnd - 1])
        invariant read <= lineEnd <= newline
        invariant TrimLine(text[read..newline]) == TrimLine(text[read..lineEnd])
      {
        OneBlank(text, read, lineEnd);
        lineEnd := lineEnd - 1;
      }
      OneBlank(text, read, lineEnd);
    }

    /** `memmove` towards the front. */
    method Move(to: nat, from: nat, len: nat)
      requires Valid() && to <= from && from + len <= size
      modifies data
      ensures data[..to + len] == old(data[..to] + data[from..from + len])
      ensures forall i :: from + len <= i < data.Length ==> data[i] == old(data[i])
    {
      var gap := from - to;
      for i := to to to + len
        invariant forall k :: 0 <= k < to ==> data[k] == old(data[k])
        invariant forall k :: to <= k < i ==> data[k] == old(data[k + gap])
        invariant forall k :: i + gap <= k < data.Length ==> data[k] == old(data[k])
      {
        data[i] := data[i + gap];
      }
      ghost var moved := old(data[..to] + data[from..from + len]);
      assert forall k :: 0 <= k < to + len ==> data[k] == moved[k];
    }

    /** One turn of the outer loop: the line at the read cursor, trimmed, with its newline
        if it has one, is moved down to the write cursor, which stays behind. */
    method CopyLine(write: nat, read: nat, ghost text: string) returns (write': nat, read': nat, ended: bool)
      requires Valid() && write <= read < size == |text|
      requires forall i :: read <= i < size ==> data[i] == text[i]
      modifies data
      ensures ended == (NewlineFrom(text, read) == size)
      ensures read' == if ended then read else NewlineFrom(text, read) + 1
      ensures write' <= (if ended then size else read')
      ensures data[..write'] == old(data[..write]) + LineAt(text, read)
      ensures !ended ==> forall i :: read' <= i < size ==> data[i] == text[i]
    {
      hide TrimLine, NewlineFrom;
      var newline, lineEnd := FindLine(read, text);
      ghost var line := text[read..lineEnd];
      assert data[read..lineEnd] == line;
      Move(write, read, lineEnd - read);
      write' := write + (lineEnd - read);
      ghost var moved := data[..write'];
      assert moved == old(data[..write]) + line;
      ended := newline == size;
      read' := read;
      if !ended {
        data[write'] := '\n';
        write' := write' + 1;
        read' := newline + 1;
        assert data[..write'] == moved + "\n";
      }
    }

    /** `buffer_rtrim_lines`: a read cursor and a write cursor that never passes it. */
    method RtrimLines()
      requires Valid()
      modifies this, data
      ensures Valid() && Contents() == Trimmed(old(Contents()))
    {
      if size == 0 {
        return;
      }
      hide Rest, LineAt, NewlineFrom, Trimmed, EndInNewline;
      ghost var text := Contents();
      RestEnds(text);
      var write, read, ended := 0, 0, false;
      while read < size && !ended
        invariant 0 <= read <= size == |text| && 0 <= write <= (if ended then size else read)
        invariant Valid() && data == old(data) && size == old(size)
        invariant !ended ==> forall i :: read <= i < size ==> data[i] == text[i]
        invariant data[..write] + (if ended then "" else Rest(text, read)) == Rest(text, 0)
        decreases size - read, !ended
      {
        ghost var before, line := data[..write], LineAt(text, read);
        RestStep(text, read);
        write, read, ended := CopyLine(write, read, text);
        Regroup(before, line, if ended then "" else Rest(text, read));
      }
      Regroup(data[..write], "", "");
      Finish(write);
    }

    /** Both `resize` calls: the text ends at the write cursor, or one place later with a
        newline that was not there. */
    method Finish(write: nat)
      requires Valid() && write <= size
      modifies this, data
      ensures Valid() && Contents() == EndInNewline(old(data[..write]))
    {
      size := write;
      if write == 0 || data[write - 1] != '\n' {
        Grow('\n');
      }
    }
  }

  lemma Regroup(a: string, b: string, c: string)
    ensures a + (b + c) == a + b + c && a + "" == a
  {
  }

  /** What the line at a position becomes. */
  function LineAt(text: string, read: nat): string
    requires read <= |text|
  {
    var k := NewlineFrom(text, read);
    TrimLine(text[read..k]) + if k == |text| then "" else "\n"
  }

  /** What the lines from a position on become. */
  function Rest(text: string, read: nat): string
    requires read <= |text|
  {
    Join(TrimLines(Split(text[read..])))
  }

  lemma RestEnds(text: string)
    requires text != ""
    ensures Rest(text, |text|) == "" && Trimmed(text) == EndInNewline(Rest(text, 0))
  {
    assert text[|text|..] == "" && text[0..] == text;
  }

  lemma {:induction false} NewlineShift(text: string, read: nat, from: nat)
    requires read <= from <= |text|
    ensures NewlineFrom(text[read..], from - read) == NewlineFrom(text, from) - read
    decreases |text| - from
  {
    if from < |text| && text[from] != '\n' {
      NewlineShift(text, read, from + 1);
    }
  }

  lemma RestStep(text: string, read: nat)
    requires read <= |text|
    ensures var k := NewlineFrom(text, read);
      Rest(text, read) == LineAt(text, read) + if k == |text| then "" else Rest(text, k + 1)
  {
    var k := NewlineFrom(text, read);
    NewlineShift(text, read, read);
    var s := text[read..];
    if k == |text| {
      assert text[read..k] == s;
    } else {
      assert s[..k - read] == text[read..k] && s[k - read + 1..] == text[k + 1..];
      var lines := Split(text[k + 1..]);
      assert ([text[read..k]] + lines)[1..] == lines;
      assert TrimLines([text[read..k]] + lines) == [TrimLine(text[read..k])] + TrimLines(lines);
      assert ([TrimLine(text[read..k])] + TrimLines(lines))[1..] == TrimLines(lines);
    }
  }

  /** A trimmed line is the line up to its last character that is not blank. */
  lemma {:induction false} TrimLineMeaning(s: string)
    ensures var r := TrimLine(s);
      && r <= s && (r == [] || !IsBlank(r[|r| - 1]))
      && forall i :: |r| <= i < |s| ==> IsBlank(s[i])
  {
    if s != [] && IsBlank(s[|s| - 1]) {
      TrimLineMeaning(s[..|s| - 1]);
    }
  }

  /** Trimmed lines are not trimmed further, and a final newline is not doubled. */
  lemma {:induction false} TrimLineIdempotent(s: string)
    ensures TrimLine(TrimLine(s)) == TrimLine(s)
  {
    if s != [] && IsBlank(s[|s| - 1]) {
      TrimLineIdempotent(s[..|s| - 1]);
    }
  }

  /** Splitting the joined lines gives the lines back. */
  lemma {:induction false} SplitJoin(lines: seq<string>)
    requires |lines| > 0 && forall i :: 0 <= i < |lines| ==> '\n' !in lines[i]
    ensures Split(Join(lines)) == lines
  {
    var s := Join(lines);
    NewlineFound(lines[0], s);
    if |lines| > 1 {
      assert s[..|lines[0]|] == lines[0] && s[|lines[0]| + 1..] == Join(lines[1..]);
      SplitJoin(lines[1..]);
    }
  }

  /** The lines of a text, joined, are the text. */
  lemma {:induction false} JoinSplit(s: string)
    ensures Join(Split(s)) == s
    decreases |s|
  {
    var k := NewlineFrom(s, 0);
    if k < |s| {
      JoinSplit(s[k + 1..]);
      assert s == s[..k] + "\n" + s[k + 1..];
      assert ([s[..k]] + Split(s[k + 1..]))[1..] == Split(s[k + 1..]);
    }
  }

  lemma NewlineFound(line: string, s: string)
    requires '\n' !in line && line <= s && (|line| == |s| || s[|line|] == '\n')
    ensures NewlineFrom(s, 0) == |line|
  {
    assert forall i :: 0 <= i < |line| ==> s[i] == line[i];
  }

  lemma TrimLineKeeps(s: string)
    requires '\n' !in s
    ensures '\n' !in TrimLine(s)
  {
  }

  /** A text whose lines are trimmed and that ends in a newline stays as it is, so trimming
      is idempotent. */
  lemma TrimmedIdempotent(s: string)
    ensures Trimmed(Trimmed(s)) == Trimmed(s)
    ensures Trimmed(s) == "" <==> s == ""
  {
    hide TrimLine, Split, Join, TrimLines;
    if s != "" {
      var lines := TrimLines(Split(s));
      var joined := Join(lines);
      forall i | 0 <= i < |lines|
        ensures '\n' !in lines[i] && TrimLine(lines[i]) == lines[i]
      {
        TrimLineKeeps(Split(s)[i]);
        TrimLineIdempotent(Split(s)[i]);
      }
      if joined != [] && joined[|joined| - 1] == '\n' {
        SplitJoin(lines);
        assert TrimLines(lines) == lines;
      } else {
        JoinNewline(lines);
        SplitJoin(lines + [""]);
        assert TrimLines(lines + [""]) == lines + [""];
      }
    }
  }

  lemma {:induction false} JoinNewline(lines: seq<string>)
    requires |lines| > 0
    ensures Join(lines + [""]) == Join(lines) + "\n"
  {
    if |lines| == 1 {
      assert (lines + [""])[1..] == [""];
    } else {
      assert (lines + [""])[1..] == lines[1..] + [""];
      JoinNewline(lines[1..]);
    }
  }

  /** The line without the spaces, tabs and carriage returns at its end. */
  predicate Ends(line: string, kept: string) {
    && kept <= line && (forall i :: |kept| <= i < |line| ==> line[i] in " \t\r")
    && (kept != "" ==> kept[|kept| - 1] !in " \t\r")
  }

  /** What trimming a text gives: its lines, which hold no newline and joined by newlines are
      the text, each without the blanks at its end, and joined by newlines again; behind them
      a newline unless one is there. */
  lemma TrimmedMeaning(s: string) returns (lines: seq<string>, kept: seq<string>)
    requires s != ""
    ensures |kept| == |lines| > 0 && Join(lines) == s
    ensures forall i :: 0 <= i < |lines| ==> '\n' !in lines[i] && Ends(lines[i], kept[i])
    ensures Trimmed(s) == Join(kept) + if "\n" <= Ending(Join(kept)) then "" else "\n"
    ensures Trimmed(s)[|Trimmed(s)| - 1..] == "\n"
  {
    hide TrimLine, Split, Join;
    lines, kept := Split(s), TrimLines(Split(s));
    JoinSplit(s);
    forall i | 0 <= i < |lines|
      ensures Ends(lines[i], kept[i])
    {
      TrimLineMeaning(lines[i]);
    }
    assert Join(kept) + "" == Join(kept);
  }

  /** The last character. */
  function Ending(s: string): string {
    if s == "" then "" else s[|s| - 1..]
  }

  /** Joining puts one newline between two lines. */
  lemma TwoLines(a: string, b: string)
    ensures Join([a]) == a && Join([a, b]) == a + "\n" + b
  {
    assert [a, b][1..] == [b];
  }
}
