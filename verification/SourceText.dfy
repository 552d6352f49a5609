/** The filters that turn C++ source text into chunks for the state-chart extractor. */
module SourceText {

  // ---------------------------------------------------------------- comments

  /** What follows the first end-of-comment mark, or nothing if there is none. */
  function AfterClose(s: string): (r: string)
    ensures |r| <= |s|
  {
    if |s| < 2 then ""
    else if s[0] == '*' && s[1] == '/' then s[2..]
    else AfterClose(s[1..])
  }

  predicate Opens(s: string) {
    |s| >= 2 && s[0] == '/' && s[1] == '*'
  }

  /** Drops every comment, from its opening mark through the first closing mark after it. */
  function Strip(s: string): string
    decreases |s|
  {
    if s == "" then ""
    else if Opens(s) then Strip(AfterClose(s[2..]))
    else [s[0]] + Strip(s[1..])
  }

  /** The text ends in a slash that is not part of a comment. */
  predicate EndsOnSlash(s: string)
    decreases |s|
  {
    if s == "" then false
    else if Opens(s) then EndsOnSlash(AfterClose(s[2..]))
    else s == "/" || EndsOnSlash(s[1..])
  }

  ghost predicate ClosesAt(s: string, i: nat) {
    i + 1 < |s| && s[i] == '*' && s[i + 1] == '/'
  }

  /** `AfterClose` does cut behind the first closing mark. */
  lemma {:induction false} AfterFirstClose(s: string, i: nat)
    requires ClosesAt(s, i)
    requires forall j: nat :: j < i ==> !ClosesAt(s, j)
    ensures AfterClose(s) == s[i + 2..]
  {
    if i > 0 {
      assert !ClosesAt(s, 0);
      forall j: nat | j < i - 1
        ensures !ClosesAt(s[1..], j)
      {
        assert !ClosesAt(s, j + 1);
      }
      assert ClosesAt(s[1..], i - 1);
      AfterFirstClose(s[1..], i - 1);
      assert s[1..][i + 1..] == s[i + 2..];
    }
  }

  lemma {:induction false} NeverClosed(s: string)
    requires forall j: nat :: !ClosesAt(s, j)
    ensures AfterClose(s) == ""
  {
    if |s| >= 2 {
      assert !ClosesAt(s, 0);
      forall j: nat
        ensures !ClosesAt(s[1..], j)
      {
        assert !ClosesAt(s, j + 1);
      }
      NeverClosed(s[1..]);
    }
  }

  /** What the automaton still has to read, with the character it is holding back put in front. */
  function Pending(inComment: bool, saw: string, rest: string): string {
    var held := if saw == "" then rest else saw + rest;
    if inComment then AfterClose(held) else held
  }

  lemma InsideComment(c: char, rest: string)
    ensures AfterClose("*" + ([c] + rest)) ==
            if c == '/' then rest else if c == '*' then AfterClose("*" + rest) else AfterClose(rest)
    ensures AfterClose([c] + rest) == if c == '*' then AfterClose("*" + rest) else AfterClose(rest)
  {
    assert ("*" + ([c] + rest))[1..] == [c] + rest;
    assert ("*" + ([c] + rest))[2..] == rest;
    assert ([c] + rest)[1..] == rest;
    assert c == '*' ==> [c] + rest == "*" + rest;
  }

  lemma OutsideComment(c: char, rest: string)
    ensures Strip("/" + ([c] + rest)) == if c == '*' then Strip(AfterClose(rest)) else "/" + Strip([c] + rest)
    ensures EndsOnSlash("/" + ([c] + rest)) ==
            if c == '*' then EndsOnSlash(AfterClose(rest)) else EndsOnSlash([c] + rest)
    ensures c != '/' ==> Strip([c] + rest) == [c] + Strip(rest) && EndsOnSlash([c] + rest) == EndsOnSlash(rest)
  {
    assert ("/" + ([c] + rest))[1..] == [c] + rest;
    assert ("/" + ([c] + rest))[2..] == rest;
    assert ([c] + rest)[1..] == rest;
  }

  lemma Concat3(a: string, b: string, c: string)
    ensures (a + b) + c == a + (b + c)
  {
  }

  ghost predicate OpensAt(s: string, i: nat) {
    i + 1 < |s| && s[i] == '/' && s[i + 1] == '*'
  }

  /** Text in front of the first comment stays as it is. */
  lemma {:induction false} PlainTextStays(a: string, rest: string)
    requires forall i: nat :: i < |a| ==> !OpensAt(a + rest, i)
    ensures Strip(a + rest) == a + Strip(rest)
  {
    if a == "" {
      assert a + rest == rest;
    } else {
      var s := a + rest;
      assert !OpensAt(s, 0);
      assert s[1..] == a[1..] + rest;
      forall i: nat | i < |a[1..]|
        ensures !OpensAt(a[1..] + rest, i)
      {
        assert !OpensAt(s, i + 1);
      }
      PlainTextStays(a[1..], rest);
      assert a == [a[0]] + a[1..];
    }
  }

  /** And a comment goes, from its opening mark through the first closing mark behind that. */
  lemma CommentGoes(a: string, body: string, rest: string)
    requires forall i: nat :: i < |a| ==> !OpensAt(a + ("/*" + (body + ("*/" + rest))), i)
    requires forall i: nat :: i < |body| ==> !ClosesAt(body + ("*/" + rest), i)
    ensures Strip(a + ("/*" + (body + ("*/" + rest)))) == a + Strip(rest)
  {
    hide Strip, OpensAt, AfterClose;
    var inside := body + ("*/" + rest);
    PlainTextStays(a, "/*" + inside);
    CommentFirst(inside);
    ClosesBehind(body, rest);
    AfterFirstClose(inside, |body|);
  }

  lemma CommentFirst(inside: string)
    ensures Strip("/*" + inside) == Strip(AfterClose(inside))
  {
    assert ("/*" + inside)[2..] == inside;
  }

  lemma ClosesBehind(body: string, rest: string)
    ensures ClosesAt(body + ("*/" + rest), |body|) && (body + ("*/" + rest))[|body| + 2..] == rest
  {
  }

  /** An unclosed comment takes the rest of the text with it. */
  lemma UnclosedGoes(a: string, body: string)
    requires forall i: nat :: i < |a| ==> !OpensAt(a + ("/*" + body), i)
    requires forall i: nat :: !ClosesAt(body, i)
    ensures Strip(a + ("/*" + body)) == a
  {
    PlainTextStays(a, "/*" + body);
    assert ("/*" + body)[2..] == body;
    NeverClosed(body);
  }

  /** The one-pass filter strips exactly the comments, but loses a final slash it is holding back. */
  method RemoveMultilineComments(input: string) returns (out: string)
    ensures !EndsOnSlash(input) ==> out == Strip(input)
    ensures EndsOnSlash(input) ==> out + "/" == Strip(input)
  {
    hide Strip, EndsOnSlash, AfterClose;
    var saw, inComment := "", false;
    out := "";
    assert input[0..] == input;
    for k := 0 to |input|
      invariant saw == "" || saw == (if inComment then "*" else "/")
      invariant out + Strip(Pending(inComment, saw, input[k..])) == Strip(input)
      invariant EndsOnSlash(Pending(inComment, saw, input[k..])) == EndsOnSlash(input)
    {
      var c := input[k];
      ghost var rest := input[k + 1..];
      assert input[k..] == [c] + rest;
      InsideComment(c, rest);
      OutsideComment(c, rest);
      Concat3(out, "/", Strip([c] + rest));
      if inComment {
        if saw == "*" {
          if c == '/' {
            inComment := false;
          }
          saw := "";
        }
        if c == '*' {
          saw := "*";
        }
        continue;
      }
      if saw == "/" {
        if c == '*' {
          inComment := true;
          saw := "";
          continue;
        } else {
          out := out + saw;
          saw := "";
        }
      }
      if c == '/' {
        saw := "/";
        continue;
      }
      Concat3(out, [c], Strip(rest));
      out := out + [c];
    }
    AtEnd(inComment, saw);
  }

  lemma AtEnd(inComment: bool, saw: string)
    requires saw == "" || saw == (if inComment then "*" else "/")
    ensures Strip(Pending(inComment, saw, "")) == if !inComment && saw == "/" then "/" else ""
    ensures EndsOnSlash(Pending(inComment, saw, "")) <==> !inComment && saw == "/"
  {
  }

  // ---------------------------------------------------------------- chunks

  predicate IsDelimiter(c: char) {
    c == ';' || c == '{' || c == '}'
  }

  /** `lstrip`: without leading newlines. */
  function LStrip(s: string): (r: string)
    ensures |r| <= |s| && r == s[|s| - |r|..]
    ensures forall i :: 0 <= i < |s| - |r| ==> s[i] == '\n'
    ensures r != "" ==> r[0] != '\n'
  {
    if s != "" && s[0] == '\n' then LStrip(s[1..]) else s
  }

  ghost predicate NoDelimiter(s: string) {
    forall i :: 0 <= i < |s| ==> !IsDelimiter(s[i])
  }

  /** Exactly one delimiter, and it comes last. */
  ghost predicate IsChunk(s: string) {
    s != "" && IsDelimiter(s[|s| - 1]) && NoDelimiter(s[..|s| - 1])
  }

  function Join(chunks: seq<string>): string {
    if chunks == [] then "" else Join(chunks[..|chunks| - 1]) + chunks[|chunks| - 1]
  }

  lemma {:induction false} LStripKeepsChunk(s: string)
    requires IsChunk(s)
    ensures IsChunk(LStrip(s))
  {
    if s[0] == '\n' {
      assert s[1..][..|s| - 2] == s[..|s| - 1][1..];
      LStripKeepsChunk(s[1..]);
    }
  }

  /** Splits the text at every delimiter; `rest` is the text the generator never yields. */
  method AccLines(input: string) returns (chunks: seq<string>, rest: string, ghost pieces: seq<string>)
    ensures |chunks| == |pieces|
    ensures forall k :: 0 <= k < |chunks| ==> IsChunk(chunks[k]) && IsChunk(pieces[k]) && chunks[k] == LStrip(pieces[k])
    ensures NoDelimiter(rest)
    ensures Join(pieces) + rest == input
    ensures '\n' !in input ==> chunks == pieces
    ensures forall k :: 0 <= k < |chunks| ==> Spelled(chunks[k])
    ensures ';' !in rest && '{' !in rest && '}' !in rest
  {
    hide LStrip, Spelled, NoDelimiter, IsChunk, IsDelimiter, Join;
    chunks, rest, pieces := [], "", [];
    NothingRead();
    for i := 0 to |input|
      invariant |chunks| == |pieces|
      invariant forall k :: 0 <= k < |chunks| ==> IsChunk(chunks[k]) && IsChunk(pieces[k]) && chunks[k] == LStrip(pieces[k])
      invariant NoDelimiter(rest)
      invariant Join(pieces) + rest == input[..i]
      invariant '\n' !in input ==> chunks == pieces && '\n' !in rest
    {
      OneMore(rest, input[i]);
      assert Join(pieces) + (rest + [input[i]]) == (Join(pieces) + rest) + [input[i]];
      rest := rest + [input[i]];
      assert input[..i + 1] == input[..i] + [input[i]];
      if IsDelimiter(input[i]) {
        LStripKeepsChunk(rest);
        LStripOneLine(rest);
        JoinNext(pieces, rest);
        chunks, pieces, rest := chunks + [LStrip(rest)], pieces + [rest], "";
      }
    }
    assert input[..|input|] == input;
    forall k | 0 <= k < |chunks|
      ensures Spelled(chunks[k])
    {
      ChunkIsSpelled(pieces[k]);
    }
    PlainRest(rest);
  }

  lemma NothingRead()
    ensures NoDelimiter("") && Join([]) + "" == ""
  {
  }

  lemma OneMore(rest: string, c: char)
    requires NoDelimiter(rest)
    ensures if IsDelimiter(c) then IsChunk(rest + [c]) else NoDelimiter(rest + [c])
  {
    assert (rest + [c])[..|rest|] == rest;
  }

  lemma LStripOneLine(s: string)
    ensures '\n' !in s ==> LStrip(s) == s
  {
  }

  lemma JoinNext(pieces: seq<string>, s: string)
    ensures Join(pieces + [s]) + "" == Join(pieces) + s
  {
    assert (pieces + [s])[..|pieces|] == pieces;
  }

  lemma PlainRest(rest: string)
    requires NoDelimiter(rest)
    ensures ';' !in rest && '{' !in rest && '}' !in rest
  {
  }

  /** Ends in one of the three characters, has none of them before, and does not begin a new line. */
  ghost predicate Spelled(s: string) {
    && s != "" && s[|s| - 1] in {';', '{', '}'} && s[0] != '\n'
    && forall i :: 0 <= i < |s| - 1 ==> s[i] !in {';', '{', '}'}
  }

  lemma ChunkIsSpelled(s: string)
    requires IsChunk(s)
    ensures Spelled(LStrip(s))
  {
    LStripKeepsChunk(s);
    var r := LStrip(s);
    forall i | 0 <= i < |r| - 1
      ensures r[i] !in {';', '{', '}'}
    {
      assert !IsDelimiter(r[..|r| - 1][i]);
    }
  }

  /** Only one way of cutting a text into chunks exists, so the method's result is the only one. */
  lemma {:induction false} ChunkingIsUnique(a: seq<string>, x: string, b: seq<string>, y: string)
    requires forall k :: 0 <= k < |a| ==> IsChunk(a[k])
    requires forall k :: 0 <= k < |b| ==> IsChunk(b[k])
    requires NoDelimiter(x) && NoDelimiter(y)
    requires Join(a) + x == Join(b) + y
    ensures a == b && x == y
    decreases |a| + |b|
  {
    var s := Join(a) + x;
    LastDelimiter(a, x);
    LastDelimiter(b, y);
    if a != [] && b != [] {
      assert |Join(a)| == |Join(b)|;
      assert Join(a) == s[..|Join(a)|] == Join(b);
      assert x == s[|Join(a)|..] == y;
      var la, lb := a[|a| - 1], b[|b| - 1];
      var ha, hb := a[..|a| - 1], b[..|b| - 1];
      CutLast(Join(ha), la, Join(hb), lb);
      ChunkingIsUnique(ha, la[..|la| - 1], hb, lb[..|lb| - 1]);
      assert la == la[..|la| - 1] + [la[|la| - 1]] == lb;
      assert a == ha + [la] == hb + [lb] == b;
    }
  }

  lemma LastDelimiter(a: seq<string>, x: string)
    requires forall k :: 0 <= k < |a| ==> IsChunk(a[k])
    requires NoDelimiter(x)
    ensures a == [] ==> NoDelimiter(Join(a) + x)
    ensures a != [] ==> Join(a) != "" && IsDelimiter((Join(a) + x)[|Join(a)| - 1])
    ensures forall i :: |Join(a)| <= i < |Join(a) + x| ==> !IsDelimiter((Join(a) + x)[i])
  {
  }

  lemma CutLast(p: string, a: string, q: string, b: string)
    requires IsChunk(a) && IsChunk(b)
    requires p + a == q + b
    ensures p + a[..|a| - 1] == q + b[..|b| - 1] && a[|a| - 1] == b[|b| - 1]
  {
    var s := p + a;
    assert p + a[..|a| - 1] == s[..|s| - 1];
    assert q + b[..|b| - 1] == s[..|s| - 1];
    assert s[|s| - 1] == a[|a| - 1] == b[|b| - 1];
  }
}
