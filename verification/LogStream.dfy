/** A stream that logs complete lines and holds back the line being written. */
module LogStream {

  ghost predicate OneLine(s: string) {
    '\n' !in s
  }

  /** `str.split` at newlines: always at least one piece. */
  function Split(s: string): (lines: seq<string>)
    ensures lines != []
  {
    if s == "" then [""]
    else
      var rest := Split(s[..|s| - 1]);
      var c := s[|s| - 1];
      if c == '\n' then rest + [""] else rest[..|rest| - 1] + [rest[|rest| - 1] + [c]]
  }

  /** The pieces hold no newline, and put back together with newlines they are the text. */
  lemma {:induction false} SplitMeans(s: string)
    ensures forall k :: 0 <= k < |Split(s)| ==> OneLine(Split(s)[k])
    ensures Text(Split(s)[..|Split(s)| - 1], Split(s)[|Split(s)| - 1]) == s
  {
    if s != "" {
      var rest, c := Split(s[..|s| - 1]), s[|s| - 1];
      var init, last := rest[..|rest| - 1], rest[|rest| - 1];
      SplitMeans(s[..|s| - 1]);
      hide Text;
      if c == '\n' {
        assert (rest + [""])[..|rest|] == rest;
        TextLast(rest, "");
        assert "\n" + "" == "\n" == [c];
      } else {
        assert (init + [last + [c]])[..|init|] == init;
        TextBuffer(init, last, [c]);
      }
      assert s == s[..|s| - 1] + [c];
    }
  }

  /** Everything written: each logged line ends in a newline, the buffer does not. */
  function Text(lines: seq<string>, buffer: string): string {
    if lines == [] then buffer else Text(lines[..|lines| - 1], lines[|lines| - 1]) + "\n" + buffer
  }

  lemma {:induction false} TextConcat(a: seq<string>, b: seq<string>, buffer: string)
    requires b != []
    ensures Text(a + b, buffer) == Text(a, Text(b, buffer))
    decreases |b|
  {
    var init, last := b[..|b| - 1], b[|b| - 1];
    TextLast(a + b, buffer);
    TextLast(b, buffer);
    assert (a + b)[..|a + b| - 1] == a + init;
    hide Text;
    TextBuffer(a, Text(init, last), "\n" + buffer);
    if init == [] {
      assert a + init == a;
      NoLines(last);
    } else {
      TextConcat(a, init, last);
    }
  }

  lemma NoLines(buffer: string)
    ensures Text([], buffer) == buffer
  {
  }

  lemma TextLast(lines: seq<string>, buffer: string)
    requires lines != []
    ensures Text(lines, buffer) == Text(lines[..|lines| - 1], lines[|lines| - 1]) + ("\n" + buffer)
  {
    var head := Text(lines[..|lines| - 1], lines[|lines| - 1]);
    assert head + "\n" + buffer == head + ("\n" + buffer);
  }

  lemma TextBuffer(lines: seq<string>, x: string, y: string)
    ensures Text(lines, x + y) == Text(lines, x) + y
  {
    if lines != [] {
      var head := Text(lines[..|lines| - 1], lines[|lines| - 1]) + "\n";
      assert head + (x + y) == (head + x) + y;
    }
  }

  /** A text has only one division into lines and a rest, so how it was cut into writes does not show. */
  lemma {:induction false} DivisionIsUnique(a: seq<string>, x: string, b: seq<string>, y: string)
    requires forall k :: 0 <= k < |a| ==> OneLine(a[k])
    requires forall k :: 0 <= k < |b| ==> OneLine(b[k])
    requires OneLine(x) && OneLine(y)
    requires Text(a, x) == Text(b, y)
    ensures a == b && x == y
    decreases |a| + |b|
  {
    HasNewline(a, x);
    HasNewline(b, y);
    if a != [] && b != [] {
      var ta, tb := Text(a[..|a| - 1], a[|a| - 1]), Text(b[..|b| - 1], b[|b| - 1]);
      LastNewline(ta, x);
      LastNewline(tb, y);
      var s := Text(a, x);
      assert ta == s[..|ta|] && tb == s[..|tb|] && x == s[|ta| + 1..] && y == s[|tb| + 1..];
      DivisionIsUnique(a[..|a| - 1], a[|a| - 1], b[..|b| - 1], b[|b| - 1]);
      assert a == a[..|a| - 1] + [a[|a| - 1]];
      assert b == b[..|b| - 1] + [b[|b| - 1]];
    }
  }

  lemma HasNewline(lines: seq<string>, x: string)
    ensures lines != [] ==> !OneLine(Text(lines, x))
  {
    if lines != [] {
      var t := Text(lines[..|lines| - 1], lines[|lines| - 1]);
      assert Text(lines, x)[|t|] == '\n';
    }
  }

  lemma LastNewline(t: string, x: string)
    requires OneLine(x)
    ensures var s := t + "\n" + x; s[|t|] == '\n' && forall i :: |t| < i < |s| ==> s[i] != '\n'
  {
    var s := t + "\n" + x;
    assert forall i :: |t| < i < |s| ==> s[i] == x[i - |t| - 1];
  }

  class Stream {
    var buffer: string
    var logged: seq<string>

    ghost predicate Valid()
      reads this
    {
      OneLine(buffer) && forall k :: 0 <= k < |logged| ==> OneLine(logged[k])
    }

    constructor ()
      ensures Valid() && buffer == "" && logged == []
    {
      buffer, logged := "", [];
    }

    method Write(data: string)
      requires Valid()
      modifies this
      ensures Valid()
      ensures old(logged) <= logged
      ensures Text(logged, buffer) == old(Text(logged, buffer)) + data
    {
      TextBuffer(logged, buffer, data);
      buffer := buffer + data;
      if '\n' in buffer {
        var lines := Split(buffer);
        SplitMeans(buffer);
        var complete := lines[..|lines| - 1];
        if complete != [] {
          TextConcat(logged, complete, lines[|lines| - 1]);
        }
        for k := 0 to |complete|
          invariant buffer == old(buffer) + data
          invariant logged == old(logged) + complete[..k]
        {
          logged := logged + [complete[k]];
        }
        assert complete[..|complete|] == complete;
        buffer := lines[|lines| - 1];
      }
    }
  }

  function Concat(chunks: seq<string>): string {
    if chunks == [] then "" else Concat(chunks[..|chunks| - 1]) + chunks[|chunks| - 1]
  }

  /** Any series of writes leaves what one write of the whole text would leave. */
  method WriteAll(chunks: seq<string>) returns (logged: seq<string>, buffer: string)
    ensures var lines := Split(Concat(chunks)); logged == lines[..|lines| - 1] && buffer == lines[|lines| - 1]
    ensures '\n' !in buffer && forall k :: 0 <= k < |logged| ==> '\n' !in logged[k]
    ensures |logged| == multiset(Concat(chunks))['\n']
    ensures Concat(chunks) == Text(logged, buffer)
  {
    var s := new Stream();
    for k := 0 to |chunks|
      invariant s.Valid() && fresh(s)
      invariant Text(s.logged, s.buffer) == Concat(chunks[..k])
    {
      assert chunks[..k + 1][..k] == chunks[..k];
      s.Write(chunks[k]);
    }
    assert chunks[..|chunks|] == chunks;
    logged, buffer := s.logged, s.buffer;
    ghost var lines := Split(Concat(chunks));
    SplitMeans(Concat(chunks));
    DivisionIsUnique(logged, buffer, lines[..|lines| - 1], lines[|lines| - 1]);
    NewlinesAreLines(logged, buffer);
  }

  /** There are as many lines as newlines. */
  lemma {:induction false} NewlinesAreLines(lines: seq<string>, buffer: string)
    requires OneLine(buffer) && forall k :: 0 <= k < |lines| ==> OneLine(lines[k])
    ensures multiset(Text(lines, buffer))['\n'] == |lines|
    decreases |lines|
  {
    assert '\n' !in multiset(buffer);
    if lines != [] {
      var init, last := lines[..|lines| - 1], lines[|lines| - 1];
      NewlinesAreLines(init, last);
      assert multiset(Text(init, last) + "\n" + buffer) == multiset(Text(init, last)) + multiset{'\n'} + multiset(buffer);
    }
  }
}
