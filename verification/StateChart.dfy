/**
 The state-chart extractor's scope tracking.  A chunk is what the regular expressions find in
 one piece of source text: at most one state class, transitions, one `transit`, at most one
 reaction method, and the delimiter that ends the piece.
 */
module StateChart {
  import opened Wrappers

  datatype Delimiter = Open | Close | Semi

  datatype Chunk = Chunk(
    state: Option<string>,
    transitions: seq<(string, string)>,
    transit: Option<string>,
    reaction: Option<(string, string)>,
    delim: Delimiter)

  /** An entry of the context stack: who, at what brace depth, reacting to which event. */
  datatype Mark = Mark(name: string, depth: int, event: string)

  datatype Edge = Edge(event: string, source: string, target: string)

  // ---------------------------------------------------------------- one chunk

  function StateMark(depth: int, c: Chunk): seq<Mark> {
    match c.state
    case Some(name) => [Mark(name, depth, "")]
    case None => []
  }

  function ReactionMark(depth: int, c: Chunk): seq<Mark> {
    match c.reaction
    case Some((tag, event)) => [Mark(tag, depth, event)]
    case None => []
  }

  function Marks(depth: int, c: Chunk): seq<Mark> {
    StateMark(depth, c) + ReactionMark(depth, c)
  }

  function Named(source: string, transitions: seq<(string, string)>): seq<Edge> {
    if transitions == [] then []
    else Named(source, transitions[..|transitions| - 1]) +
         [Edge(transitions[|transitions| - 1].0, source, transitions[|transitions| - 1].1)]
  }

  /** The edges a chunk contributes under context `ctx`; `None` if the script raises. */
  function EdgesOf(ctx: seq<Mark>, c: Chunk): Option<seq<Edge>> {
    if ctx == [] then
      if c.transitions == [] && c.transit == None then Some([]) else None
    else
      var top := ctx[|ctx| - 1];
      var es := Named(top.name, c.transitions);
      match c.transit
      case None => Some(es)
      case Some(target) => if top.event == "" then None else Some(es + [Edge(top.event, top.name, target)])
  }

  /** The transitions of a chunk, one edge each, in order, all from the same source. */
  lemma {:induction false} NamedAt(source: string, transitions: seq<(string, string)>)
    ensures |Named(source, transitions)| == |transitions|
    ensures forall k :: 0 <= k < |transitions| ==>
              && Named(source, transitions)[k].event == transitions[k].0
              && Named(source, transitions)[k].source == source
              && Named(source, transitions)[k].target == transitions[k].1
  {
    if transitions != [] {
      NamedAt(source, transitions[..|transitions| - 1]);
    }
  }

  /**
   What a chunk contributes, field by field: one edge for each transition, then one for the
   `transit`, all from the context on top; nothing else, and it raises in exactly these cases.
   */
  lemma EdgesMean(ctx: seq<Mark>, c: Chunk)
    ensures EdgesOf(ctx, c) == None <==>
            || (ctx == [] && (c.transitions != [] || c.transit.Some?))
            || (ctx != [] && c.transit.Some? && ctx[|ctx| - 1].event == "")
    ensures EdgesOf(ctx, c).Some? ==> FieldByField(ctx, c, EdgesOf(ctx, c).value)
  {
    if ctx != [] {
      NamedAt(ctx[|ctx| - 1].name, c.transitions);
    }
  }

  ghost predicate FieldByField(ctx: seq<Mark>, c: Chunk, es: seq<Edge>) {
    && |es| == |c.transitions| + (if c.transit.Some? then 1 else 0)
    && (es != [] ==> ctx != [])
    && (forall k :: 0 <= k < |es| ==> es[k].source == ctx[|ctx| - 1].name)
    && (forall k :: 0 <= k < |c.transitions| ==> es[k].event == c.transitions[k].0 && es[k].target == c.transitions[k].1)
    && (c.transit.Some? ==>
          es[|c.transitions|].event == ctx[|ctx| - 1].event && es[|c.transitions|].target == c.transit.value)
  }

  /** Drops the marks on top that were set at `depth`. */
  function Pop(ctx: seq<Mark>, depth: int): seq<Mark> {
    if ctx != [] && ctx[|ctx| - 1].depth == depth then Pop(ctx[..|ctx| - 1], depth) else ctx
  }

  /** Exactly the unbroken run on top goes. */
  lemma {:induction false} PopMeans(ctx: seq<Mark>, depth: int)
    ensures var kept := Pop(ctx, depth);
            && kept <= ctx
            && (forall i :: |kept| <= i < |ctx| ==> ctx[i].depth == depth)
            && (kept != [] ==> kept[|kept| - 1].depth != depth)
  {
    if ctx != [] && ctx[|ctx| - 1].depth == depth {
      PopMeans(ctx[..|ctx| - 1], depth);
    }
  }

  datatype Scan = Scan(context: seq<Mark>, depth: int, found: seq<Edge>)

  function Step(s: Scan, c: Chunk): Option<Scan> {
    match EdgesOf(s.context + StateMark(s.depth, c), c)
    case None => None
    case Some(es) =>
      var ctx := s.context + Marks(s.depth, c);
      match c.delim
      case Open => Some(Scan(ctx, s.depth + 1, s.found + es))
      case Close => Some(Scan(Pop(ctx, s.depth - 1), s.depth - 1, s.found + es))
      case Semi => Some(Scan(ctx, s.depth, s.found + es))
  }

  function Run(s: Scan, chunks: seq<Chunk>): Option<Scan>
    decreases |chunks|
  {
    if chunks == [] then Some(s)
    else match Step(s, chunks[0])
         case None => None
         case Some(s') => Run(s', chunks[1..])
  }

  lemma {:induction false} RunConcat(s: Scan, a: seq<Chunk>, b: seq<Chunk>)
    ensures Run(s, a + b) == match Run(s, a) case None => None case Some(s') => Run(s', b)
    decreases |a|
  {
    if a == [] {
      assert a + b == b;
    } else {
      assert (a + b)[1..] == a[1..] + b;
      match Step(s, a[0])
      case None =>
      case Some(s') => RunConcat(s', a[1..], b);
    }
  }

  // ---------------------------------------------------------------- what the stack should mean

  /** Brace-balanced text: lines, and blocks with the chunk before each brace. */
  datatype Item = Line(chunk: Chunk) | Block(head: Chunk, body: seq<Item>, tail: Chunk)

  function Flatten(items: seq<Item>): seq<Chunk> {
    if items == [] then [] else FlattenItem(items[0]) + Flatten(items[1..])
  }

  function FlattenItem(item: Item): seq<Chunk> {
    match item
    case Line(c) => [c]
    case Block(h, body, t) => [h] + (Flatten(body) + [t])
  }

  predicate Quiet(c: Chunk) {
    c.state == None && c.reaction == None
  }

  /** Braces where they belong, and marks set only by chunks that open a block. */
  ghost predicate Disciplined(item: Item) {
    match item
    case Line(c) => c.delim == Semi && Quiet(c)
    case Block(h, body, t) =>
      h.delim == Open && t.delim == Close && Quiet(t) && forall i :: 0 <= i < |body| ==> Disciplined(body[i])
  }

  function Both(a: Option<seq<Edge>>, b: Option<seq<Edge>>): Option<seq<Edge>> {
    if a.Some? && b.Some? then Some(a.value + b.value) else None
  }

  /**
   Lexical scoping, with no stack to pop: a block's marks are in force for its body and its
   closing chunk and nowhere else, so each edge belongs to the innermost enclosing block that
   set a mark.
   */
  function Scoped(items: seq<Item>, ctx: seq<Mark>, depth: int): Option<seq<Edge>>
    decreases items
  {
    if items == [] then Some([])
    else Both(ScopedItem(items[0], ctx, depth), Scoped(items[1..], ctx, depth))
  }

  function ScopedItem(item: Item, ctx: seq<Mark>, depth: int): Option<seq<Edge>>
    decreases item
  {
    match item
    case Line(c) => EdgesOf(ctx, c)
    case Block(h, body, t) =>
      var inner := ctx + Marks(depth, h);
      Both(EdgesOf(ctx + StateMark(depth, h), h), Both(Scoped(body, inner, depth + 1), EdgesOf(inner, t)))
  }

  // ---------------------------------------------------------------- the invariant

  /** Deeper marks lie higher, and every mark was set outside the current depth. */
  ghost predicate Nested(ctx: seq<Mark>, depth: int) {
    && (forall i :: 0 <= i < |ctx| ==> ctx[i].depth < depth)
    && (forall i, j :: 0 <= i < j < |ctx| ==> ctx[i].depth <= ctx[j].depth)
  }

  lemma {:induction false} PopNested(ctx: seq<Mark>, depth: int)
    requires Nested(ctx, depth + 1)
    ensures Nested(Pop(ctx, depth), depth)
  {
    if ctx != [] && ctx[|ctx| - 1].depth == depth {
      PopNested(ctx[..|ctx| - 1], depth);
    }
  }

  /** The marks of a block's head are exactly what its closing brace pops. */
  lemma PopMarks(ctx: seq<Mark>, depth: int, c: Chunk)
    requires Nested(ctx, depth)
    ensures Pop(ctx + Marks(depth, c), depth) == ctx
  {
    var s, r := StateMark(depth, c), ReactionMark(depth, c);
    assert ctx + Marks(depth, c) == (ctx + s) + r;
    PopOne(ctx + s, r, depth);
    PopOne(ctx, s, depth);
  }

  lemma PopOne(ctx: seq<Mark>, m: seq<Mark>, depth: int)
    requires |m| <= 1
    requires m != [] ==> m[0].depth == depth
    ensures Pop(ctx + m, depth) == Pop(ctx, depth)
  {
    if m == [] {
      assert ctx + m == ctx;
    } else {
      assert (ctx + m)[..|ctx|] == ctx;
    }
  }

  lemma MarksOnTop(ctx: seq<Mark>, depth: int, c: Chunk)
    ensures Quiet(c) ==> ctx + Marks(depth, c) == ctx
    ensures !Quiet(c) ==> var all := ctx + Marks(depth, c); all != [] && all[|all| - 1].depth == depth
  {
  }

  lemma TopTooDeep(ctx: seq<Mark>, depth: int)
    requires ctx != [] && ctx[|ctx| - 1].depth >= depth
    ensures !Nested(ctx, depth)
  {
  }

  /** A chunk keeps the stack in order exactly if it sets no mark or opens a block. */
  lemma NestedIff(s: Scan, c: Chunk)
    requires Nested(s.context, s.depth)
    requires Step(s, c).Some?
    ensures Nested(Step(s, c).value.context, Step(s, c).value.depth) <==> Quiet(c) || c.delim == Open
  {
    hide Nested, Marks, StateMark, EdgesOf, Quiet;
    var ctx := s.context + Marks(s.depth, c);
    MarksOnTop(s.context, s.depth, c);
    match c.delim
    case Open => OpenBlock(s, c);
    case Semi => if !Quiet(c) { TopTooDeep(ctx, s.depth); }
    case Close =>
      if Quiet(c) {
        PopNested(s.context, s.depth - 1);
      } else {
        assert Pop(ctx, s.depth - 1) == ctx;
        TopTooDeep(ctx, s.depth - 1);
      }
  }

  /** A mark set by a chunk that ends in a semicolon outlives the block it was set in. */
  lemma StrayMark(name: string)
    ensures var open, stray, close := Chunk(None, [], None, None, Open), Chunk(Some(name), [], None, None, Semi),
                                      Chunk(None, [], None, None, Close);
            Run(Scan([], 0, []), [open] + ([stray] + [close])) == Some(Scan([Mark(name, 1, "")], 0, []))
  {
    var open, stray, close := Chunk(None, [], None, None, Open), Chunk(Some(name), [], None, None, Semi),
                              Chunk(None, [], None, None, Close);
    RunConcat(Scan([], 0, []), [open], [stray] + [close]);
    RunOne(Scan([], 0, []), open);
    RunConcat(Scan([], 1, []), [stray], [close]);
    RunOne(Scan([], 1, []), stray);
    var left := Scan([Mark(name, 1, "")], 1, []);
    assert [] + StateMark(1, stray) == left.context == [] + Marks(1, stray);
    assert Step(Scan([], 1, []), stray) == Some(left);
    RunOne(left, close);
    assert left.context + StateMark(1, close) == left.context == left.context + Marks(1, close);
    assert Pop(left.context, 0) == left.context;
  }

  lemma RunOne(s: Scan, c: Chunk)
    ensures Run(s, [c]) == Step(s, c)
  {
    assert [c][1..] == [];
  }

  function Adds(s: Scan, es: Option<seq<Edge>>): Option<Scan> {
    if es.Some? then Some(s.(found := s.found + es.value)) else None
  }

  lemma AddsBoth(s: Scan, a: Option<seq<Edge>>, b: Option<seq<Edge>>)
    ensures Adds(s, Both(a, b)) == if a.Some? then Adds(Adds(s, a).value, b) else None
  {
    if a.Some? && b.Some? {
      assert (s.found + a.value) + b.value == s.found + (a.value + b.value);
    }
  }

  /**
   Running the stack machine over balanced text finds the edges that lexical scoping finds
   and puts the stack and the depth back.
   */
  lemma {:induction false} BlocksRestore(items: seq<Item>, s: Scan)
    requires forall i :: 0 <= i < |items| ==> Disciplined(items[i])
    requires Nested(s.context, s.depth)
    ensures Run(s, Flatten(items)) == Adds(s, Scoped(items, s.context, s.depth))
    decreases items
  {
    if items == [] {
      assert s.found + [] == s.found;
    } else {
      var first := ScopedItem(items[0], s.context, s.depth);
      RunConcat(s, FlattenItem(items[0]), Flatten(items[1..]));
      BlockRestores(items[0], s);
      AddsBoth(s, first, Scoped(items[1..], s.context, s.depth));
      if first.Some? {
        BlocksRestore(items[1..], Adds(s, first).value);
      }
    }
  }

  lemma {:induction false} BlockRestores(item: Item, s: Scan)
    requires Disciplined(item)
    requires Nested(s.context, s.depth)
    ensures Run(s, FlattenItem(item)) == Adds(s, ScopedItem(item, s.context, s.depth))
    decreases item
  {
    hide Run, Step, EdgesOf, Marks, StateMark, Nested, Quiet;
    match item
    case Line(c) =>
      RunOne(s, c);
      PlainLine(s, c);
    case Block(h, body, t) =>
      OpenBlock(s, h);
      var inner := s.context + Marks(s.depth, h);
      var es, fs, gs := EdgesOf(s.context + StateMark(s.depth, h), h), Scoped(body, inner, s.depth + 1), EdgesOf(inner, t);
      RunConcat(s, [h], Flatten(body) + [t]);
      RunOne(s, h);
      AddsBoth(s, es, Both(fs, gs));
      if es.Some? {
        var s1 := Adds(s, es).value;
        var in1 := Scan(inner, s.depth + 1, s1.found);
        RunConcat(in1, Flatten(body), [t]);
        BlocksRestore(body, in1);
        AddsBoth(s1, fs, gs);
        if fs.Some? {
          RunOne(Adds(in1, fs).value, t);
          CloseBlock(Adds(s1, fs).value, h, t);
        }
      }
  }

  lemma PlainLine(s: Scan, c: Chunk)
    requires c.delim == Semi && Quiet(c)
    ensures Step(s, c) == Adds(s, EdgesOf(s.context, c))
  {
    assert s.context + StateMark(s.depth, c) == s.context;
    assert s.context + Marks(s.depth, c) == s.context;
  }

  lemma OpenBlock(s: Scan, h: Chunk)
    requires Nested(s.context, s.depth)
    requires h.delim == Open
    ensures Nested(s.context + Marks(s.depth, h), s.depth + 1)
    ensures var es := EdgesOf(s.context + StateMark(s.depth, h), h);
            Step(s, h) == if es.Some? then Some(Scan(s.context + Marks(s.depth, h), s.depth + 1, s.found + es.value))
                          else None
  {
  }

  lemma CloseBlock(s: Scan, h: Chunk, t: Chunk)
    requires Nested(s.context, s.depth)
    requires t.delim == Close && Quiet(t)
    ensures Step(Scan(s.context + Marks(s.depth, h), s.depth + 1, s.found), t) ==
            Adds(s, EdgesOf(s.context + Marks(s.depth, h), t))
  {
    var ctx := s.context + Marks(s.depth, h);
    assert ctx + StateMark(s.depth + 1, t) == ctx;
    assert ctx + Marks(s.depth + 1, t) == ctx;
    PopMarks(s.context, s.depth, h);
  }

  // ---------------------------------------------------------------- which texts have blocks

  /** The brace depth after the chunks, from depth `d`; -1 if a closing brace has no opening one. */
  function Depth(cs: seq<Chunk>, d: nat): int
    decreases |cs|
  {
    if cs == [] then d
    else match cs[0].delim
         case Open => Depth(cs[1..], d + 1)
         case Close => if d == 0 then -1 else Depth(cs[1..], d - 1)
         case Semi => Depth(cs[1..], d)
  }

  ghost predicate Balanced(cs: seq<Chunk>) {
    Depth(cs, 0) == 0
  }

  /** Only chunks that open a block set marks. */
  ghost predicate Tame(cs: seq<Chunk>) {
    forall i :: 0 <= i < |cs| ==> Quiet(cs[i]) || cs[i].delim == Open
  }

  lemma {:induction false} DepthConcat(a: seq<Chunk>, b: seq<Chunk>, d: nat)
    requires Depth(a, d) >= 0
    ensures Depth(a + b, d) == Depth(b, Depth(a, d))
    decreases |a|
  {
    if a == [] {
      assert a + b == b;
    } else {
      assert (a + b)[1..] == a[1..] + b;
      match a[0].delim
      case Open => DepthConcat(a[1..], b, d + 1);
      case Close => DepthConcat(a[1..], b, d - 1);
      case Semi => DepthConcat(a[1..], b, d);
    }
  }

  /** The closing brace that ends the block `k` levels up, in text that closes `k + 1 + d` blocks. */
  lemma {:induction false} FindClose(cs: seq<Chunk>, k: nat, d: nat) returns (j: nat)
    requires Depth(cs, k + 1 + d) == 0
    ensures j < |cs| && cs[j].delim == Close
    ensures Depth(cs[..j], k) == 0 && Depth(cs[j + 1..], d) == 0
    decreases |cs|
  {
    if cs[0].delim == Close && k == 0 {
      j := 0;
    } else {
      var k' := match cs[0].delim case Open => k + 1 case Close => k - 1 case Semi => k;
      var i := FindClose(cs[1..], k', d);
      j := i + 1;
      assert cs[..j][1..] == cs[1..][..i];
      assert cs[j + 1..] == cs[1..][i + 1..];
    }
  }

  lemma FlattenCons(item: Item, rest: seq<Item>)
    ensures Flatten([item] + rest) == FlattenItem(item) + Flatten(rest)
  {
    assert ([item] + rest)[1..] == rest;
  }

  lemma CutOut(cs: seq<Chunk>, j: nat)
    requires cs != [] && j < |cs| - 1
    ensures [cs[0]] + (cs[1..][..j] + [cs[1..][j]]) + cs[1..][j + 1..] == cs
  {
  }

  /** Every balanced text is the text of some lines and blocks. */
  lemma {:induction false} BalancedIsFlat(cs: seq<Chunk>) returns (items: seq<Item>)
    requires Balanced(cs) && Tame(cs)
    ensures Flatten(items) == cs
    ensures forall i :: 0 <= i < |items| ==> Disciplined(items[i])
    decreases |cs|
  {
    if cs == [] {
      items := [];
    } else if cs[0].delim == Semi {
      var rest := BalancedIsFlat(cs[1..]);
      FlattenCons(Line(cs[0]), rest);
      hide Flatten, Depth;
      items := [Line(cs[0])] + rest;
    } else {
      var j := FindClose(cs[1..], 0, 0);
      var body := BalancedIsFlat(cs[1..][..j]);
      var rest := BalancedIsFlat(cs[1..][j + 1..]);
      hide Flatten, Depth;
      CutOut(cs, j);
      var block := Block(cs[0], body, cs[1..][j]);
      FlattenCons(block, rest);
      items := [block] + rest;
    }
  }

  /** And the text of lines and blocks is balanced. */
  lemma {:induction false} FlatIsBalanced(items: seq<Item>, d: nat)
    requires forall i :: 0 <= i < |items| ==> Disciplined(items[i])
    ensures Depth(Flatten(items), d) == d
    decreases items
  {
    if items != [] {
      FlatItemIsBalanced(items[0], d);
      DepthConcat(FlattenItem(items[0]), Flatten(items[1..]), d);
      FlatIsBalanced(items[1..], d);
    }
  }

  lemma {:induction false} FlatItemIsBalanced(item: Item, d: nat)
    requires Disciplined(item)
    ensures Depth(FlattenItem(item), d) == d
    decreases item
  {
    match item
    case Line(c) => assert [c][1..] == [];
    case Block(h, body, t) =>
      FlatIsBalanced(body, d + 1);
      DepthConcat(Flatten(body), [t], d + 1);
      assert [t][1..] == [];
      assert ([h] + (Flatten(body) + [t]))[1..] == Flatten(body) + [t];
  }

  /** So any balanced text whose marks are set by opening chunks puts the stack and the depth back. */
  lemma BalancedTextRestores(cs: seq<Chunk>, s: Scan)
    requires Balanced(cs) && Tame(cs)
    requires Nested(s.context, s.depth)
    ensures Run(s, cs).Some? ==> Run(s, cs).value.context == s.context && Run(s, cs).value.depth == s.depth
  {
    var items := BalancedIsFlat(cs);
    BlocksRestore(items, s);
  }

  // ---------------------------------------------------------------- which texts put the stack back

  function Delta(c: Chunk): int {
    match c.delim
    case Open => 1
    case Close => -1
    case Semi => 0
  }

  /** The brace depth before chunk `k`, relative to the start. */
  function Level(cs: seq<Chunk>, k: nat): int
    requires k <= |cs|
  {
    if k == 0 then 0 else Level(cs, k - 1) + Delta(cs[k - 1])
  }

  /**
   Chunk `j` takes back the marks of chunk `i`: it closes a block at the depth they were set at,
   sets none itself, and every mark in between that was set at another depth is gone by then.
   */
  ghost predicate Clears(cs: seq<Chunk>, i: nat, j: nat)
    decreases j - i
  {
    && i < j < |cs| && cs[j].delim == Close && Quiet(cs[j]) && Level(cs, j + 1) == Level(cs, i)
    && forall k :: i < k < j && !Quiet(cs[k]) && Level(cs, k) != Level(cs, i) ==> ClearedBefore(cs, k, j)
  }

  ghost predicate ClearedBefore(cs: seq<Chunk>, i: nat, n: nat)
    requires n <= |cs|
    decreases n - i, 0
  {
    exists j :: i < j < n && Clears(cs, i, j)
  }

  // The stack as positions in the text, one for each chunk that set marks.

  function PopAt(cs: seq<Chunk>, at: seq<nat>, level: int): seq<nat>
    requires forall m :: 0 <= m < |at| ==> at[m] < |cs|
  {
    if at != [] && Level(cs, at[|at| - 1]) == level then PopAt(cs, at[..|at| - 1], level) else at
  }

  function StackAt(cs: seq<Chunk>, n: nat): (at: seq<nat>)
    requires n <= |cs|
    ensures forall m :: 0 <= m < |at| ==> at[m] < n && !Quiet(cs[at[m]])
  {
    if n == 0 then []
    else
      var below := StackAt(cs, n - 1);
      if !Quiet(cs[n - 1]) then below + [n - 1]
      else if cs[n - 1].delim == Close then PopAtIsPrefix(cs, below, Level(cs, n)); PopAt(cs, below, Level(cs, n))
      else below
  }

  lemma {:induction false} PopAtIsPrefix(cs: seq<Chunk>, at: seq<nat>, level: int)
    requires forall m :: 0 <= m < |at| ==> at[m] < |cs|
    ensures var kept := PopAt(cs, at, level);
            && kept <= at
            && (forall m :: |kept| <= m < |at| ==> Level(cs, at[m]) == level)
            && (kept != [] ==> Level(cs, kept[|kept| - 1]) != level)
  {
    if at != [] && Level(cs, at[|at| - 1]) == level {
      PopAtIsPrefix(cs, at[..|at| - 1], level);
    }
  }

  ghost predicate Ascending(at: seq<nat>) {
    forall a, b :: 0 <= a < b < |at| ==> at[a] < at[b]
  }

  lemma {:induction false} StackAscends(cs: seq<Chunk>, n: nat)
    requires n <= |cs|
    ensures Ascending(StackAt(cs, n))
  {
    if n > 0 {
      StackAscends(cs, n - 1);
      PopAtIsPrefix(cs, StackAt(cs, n - 1), Level(cs, n));
      AscendingPrefix(StackAt(cs, n - 1), PopAt(cs, StackAt(cs, n - 1), Level(cs, n)));
    }
  }

  lemma AscendingPrefix(at: seq<nat>, kept: seq<nat>)
    requires Ascending(at) && kept <= at
    ensures Ascending(kept)
  {
    assert forall a :: 0 <= a < |kept| ==> kept[a] == at[a];
  }

  /** What one closing chunk takes off the stack. */
  lemma PoppedIff(cs: seq<Chunk>, at: seq<nat>, level: int, i: nat)
    requires forall m :: 0 <= m < |at| ==> at[m] < |cs|
    requires Ascending(at)
    requires i in at
    ensures i !in PopAt(cs, at, level) <==>
            Level(cs, i) == level && forall k :: k in at && i < k ==> Level(cs, k) == level
  {
    PopAtIsPrefix(cs, at, level);
    var kept := PopAt(cs, at, level);
    if i in kept {
      var top := kept[|kept| - 1];
      assert top in at && i <= top;
    } else {
      assert forall m :: 0 <= m < |at| && i <= at[m] ==> m >= |kept|;
    }
  }

  /** The stack holds exactly the marks that nothing has taken back. */
  lemma {:induction false} StackIff(cs: seq<Chunk>, n: nat, i: nat)
    requires n <= |cs| && i < n
    ensures i in StackAt(cs, n) <==> !Quiet(cs[i]) && !ClearedBefore(cs, i, n)
    decreases n
  {
    hide Quiet, StackAt, PopAt, Level, Clears, ClearedBefore;
    var j := n - 1;
    if i == j {
      NotYet(cs, j);
    } else {
      forall k | i <= k < j
        ensures k in StackAt(cs, j) <==> !Quiet(cs[k]) && !ClearedBefore(cs, k, j)
      {
        StackIff(cs, j, k);
      }
      ClosedIff(cs, i, j);
      OneMoreChunk(cs, i, j);
    }
  }

  /** What chunk `j` leaves of the stack, if the stack before it is as it should be. */
  lemma ClosedIff(cs: seq<Chunk>, i: nat, j: nat)
    requires i < j < |cs|
    requires forall k :: i <= k < j ==> (k in StackAt(cs, j) <==> !Quiet(cs[k]) && !ClearedBefore(cs, k, j))
    ensures i in StackAt(cs, j + 1) <==> i in StackAt(cs, j) && !Clears(cs, i, j)
  {
    hide Quiet, StackAt, PopAt, ClearedBefore;
    var below := StackAt(cs, j);
    NextStack(cs, j);
    if Quiet(cs[j]) && cs[j].delim == Close {
      StackAscends(cs, j);
      BelowStack(cs, j);
      PopAtIsPrefix(cs, below, Level(cs, j + 1));
      if i in below {
        PoppedIff(cs, below, Level(cs, j + 1), i);
      }
    } else {
      assert !Clears(cs, i, j);
    }
  }

  lemma BelowStack(cs: seq<Chunk>, n: nat)
    requires n <= |cs|
    ensures forall k :: k in StackAt(cs, n) ==> k < n
  {
  }

  lemma NotYet(cs: seq<Chunk>, j: nat)
    requires j < |cs|
    ensures j in StackAt(cs, j + 1) <==> !Quiet(cs[j])
    ensures !ClearedBefore(cs, j, j + 1)
  {
    hide Quiet, StackAt, PopAt;
    NextStack(cs, j);
    BelowStack(cs, j);
    PopAtIsPrefix(cs, StackAt(cs, j), Level(cs, j + 1));
  }

  lemma OneMoreChunk(cs: seq<Chunk>, i: nat, j: nat)
    requires i < j < |cs|
    ensures ClearedBefore(cs, i, j + 1) <==> ClearedBefore(cs, i, j) || Clears(cs, i, j)
  {
    hide Clears;
  }

  // The stack machine keeps that stack.

  function MarksAt(cs: seq<Chunk>, depth: int, at: seq<nat>): seq<Mark>
    requires forall m :: 0 <= m < |at| ==> at[m] < |cs|
  {
    if at == [] then []
    else
      var i := at[|at| - 1];
      MarksAt(cs, depth, at[..|at| - 1]) + Marks(depth + Level(cs, i), cs[i])
  }

  /** The stack on top of what was there at the start. */
  function Whole(ctx: seq<Mark>, cs: seq<Chunk>, depth: int, at: seq<nat>): seq<Mark>
    requires forall m :: 0 <= m < |at| ==> at[m] < |cs|
  {
    ctx + MarksAt(cs, depth, at)
  }

  lemma PopTwo(ctx: seq<Mark>, depth: int, c: Chunk)
    ensures Pop(ctx + Marks(depth, c), depth) == Pop(ctx, depth)
  {
    var s, r := StateMark(depth, c), ReactionMark(depth, c);
    assert ctx + Marks(depth, c) == (ctx + s) + r;
    PopOne(ctx + s, r, depth);
    PopOne(ctx, s, depth);
  }

  lemma {:induction false} PopSimulated(ctx: seq<Mark>, cs: seq<Chunk>, depth: int, at: seq<nat>, level: int)
    requires forall m :: 0 <= m < |at| ==> at[m] < |cs| && !Quiet(cs[at[m]])
    requires level >= 0 && forall i :: 0 <= i < |ctx| ==> ctx[i].depth < depth
    ensures forall m :: 0 <= m < |PopAt(cs, at, level)| ==> PopAt(cs, at, level)[m] < |cs|
    ensures Pop(Whole(ctx, cs, depth, at), depth + level) == Whole(ctx, cs, depth, PopAt(cs, at, level))
  {
    hide Marks, Quiet, Level, MarksAt, Whole;
    if at == [] {
      WholeOfNone(ctx, cs, depth);
    } else {
      var i, rest := at[|at| - 1], at[..|at| - 1];
      PushSimulated(ctx, cs, depth, rest, i);
      assert rest + [i] == at;
      var below := Whole(ctx, cs, depth, rest);
      MarksOnTop(below, depth + Level(cs, i), cs[i]);
      if Level(cs, i) == level {
        PopTwo(below, depth + level, cs[i]);
        PopSimulated(ctx, cs, depth, rest, level);
      }
    }
  }

  lemma WholeOfNone(ctx: seq<Mark>, cs: seq<Chunk>, depth: int)
    ensures Whole(ctx, cs, depth, []) == ctx
  {
  }

  /** Running a prefix leaves the marks of the chunks on the stack, and no others. */
  lemma {:induction false} RunKeepsStack(s: Scan, cs: seq<Chunk>, n: nat)
    requires n <= |cs| && Run(s, cs[..n]).Some?
    requires forall i :: 0 <= i < |s.context| ==> s.context[i].depth < s.depth
    requires forall k :: 0 <= k <= n ==> Level(cs, k) >= 0
    ensures Run(s, cs[..n]).value.depth == s.depth + Level(cs, n)
    ensures Run(s, cs[..n]).value.context == s.context + MarksAt(cs, s.depth, StackAt(cs, n))
  {
    hide Marks, Quiet, Step;
    if n == 0 {
      assert s.context + [] == s.context;
    } else {
      var before, c := cs[..n - 1], cs[n - 1];
      assert cs[..n] == before + [c];
      RunConcat(s, before, [c]);
      RunKeepsStack(s, cs, n - 1);
      var mid := Run(s, before).value;
      RunOne(mid, c);
      StepKeepsStack(s, cs, n - 1, mid);
    }
  }

  lemma StepKeepsStack(s: Scan, cs: seq<Chunk>, n: nat, mid: Scan)
    requires n < |cs| && Step(mid, cs[n]).Some?
    requires forall i :: 0 <= i < |s.context| ==> s.context[i].depth < s.depth
    requires Level(cs, n + 1) >= 0
    requires mid.depth == s.depth + Level(cs, n)
    requires mid.context == Whole(s.context, cs, s.depth, StackAt(cs, n))
    ensures Step(mid, cs[n]).value.depth == s.depth + Level(cs, n + 1)
    ensures Step(mid, cs[n]).value.context == Whole(s.context, cs, s.depth, StackAt(cs, n + 1))
  {
    hide Marks, StateMark, EdgesOf, Quiet, MarksAt, PopAt, Pop, Level, Delta, Step, StackAt, Whole;
    var c, at := cs[n], StackAt(cs, n);
    StepStack(mid, c);
    NextStack(cs, n);
    StackIsMarked(cs, n);
    if !Quiet(c) {
      PushSimulated(s.context, cs, s.depth, at, n);
    } else if c.delim == Close {
      PopSimulated(s.context, cs, s.depth, at, Level(cs, n + 1));
    }
  }

  lemma StackIsMarked(cs: seq<Chunk>, n: nat)
    requires n <= |cs|
    ensures forall m :: 0 <= m < |StackAt(cs, n)| ==> StackAt(cs, n)[m] < n && !Quiet(cs[StackAt(cs, n)[m]])
  {
  }

  /** What a chunk does to the stack of marks, and to the stack of positions. */
  lemma StepStack(s: Scan, c: Chunk)
    requires Step(s, c).Some?
    ensures Step(s, c).value.depth == s.depth + Delta(c)
    ensures Step(s, c).value.context ==
            if !Quiet(c) then s.context + Marks(s.depth, c)
            else if c.delim == Close then Pop(s.context, s.depth + Delta(c))
            else s.context
  {
    hide Marks, StateMark, EdgesOf, Quiet;
    MarksOnTop(s.context, s.depth, c);
  }

  lemma NextStack(cs: seq<Chunk>, n: nat)
    requires n < |cs|
    ensures var at := StackAt(cs, n);
            StackAt(cs, n + 1) == if !Quiet(cs[n]) then at + [n]
                                  else if cs[n].delim == Close then PopAt(cs, at, Level(cs, n + 1))
                                  else at
    ensures Level(cs, n + 1) == Level(cs, n) + Delta(cs[n])
  {
  }

  lemma PushSimulated(ctx: seq<Mark>, cs: seq<Chunk>, depth: int, at: seq<nat>, n: nat)
    requires n < |cs| && forall m :: 0 <= m < |at| ==> at[m] < |cs|
    ensures Whole(ctx, cs, depth, at) + Marks(depth + Level(cs, n), cs[n]) == Whole(ctx, cs, depth, at + [n])
  {
    hide Marks, MarksAt, Level;
    var below, top := MarksAt(cs, depth, at), Marks(depth + Level(cs, n), cs[n]);
    PushMarks(cs, depth, at, n);
    assert (ctx + below) + top == ctx + (below + top);
  }

  lemma PushMarks(cs: seq<Chunk>, depth: int, at: seq<nat>, n: nat)
    requires n < |cs| && forall m :: 0 <= m < |at| ==> at[m] < |cs|
    ensures MarksAt(cs, depth, at + [n]) == MarksAt(cs, depth, at) + Marks(depth + Level(cs, n), cs[n])
  {
    hide Marks, Level;
    assert (at + [n])[..|at|] == at && (at + [n])[|at|] == n;
  }

  lemma {:induction false} LevelShift(cs: seq<Chunk>, k: nat)
    requires 0 < k <= |cs|
    ensures Level(cs, k) == Delta(cs[0]) + Level(cs[1..], k - 1)
  {
    if k > 1 {
      LevelShift(cs, k - 1);
    }
  }

  lemma {:induction false} DepthIsLevel(cs: seq<Chunk>, d: nat)
    requires Depth(cs, d) >= 0
    ensures Depth(cs, d) == d + Level(cs, |cs|)
    ensures forall k :: 0 <= k <= |cs| ==> d + Level(cs, k) >= 0
    decreases |cs|
  {
    if cs != [] {
      var d' := d + Delta(cs[0]);
      DepthIsLevel(cs[1..], d');
      forall k | 0 <= k <= |cs|
        ensures d + Level(cs, k) >= 0
        ensures k > 0 ==> d + Level(cs, k) == d' + Level(cs[1..], k - 1)
      {
        if k > 0 {
          LevelShift(cs, k);
        }
      }
    }
  }

  /** A balanced text puts the stack back exactly if each chunk's marks are taken back in it. */
  lemma {:induction false} RestoresIff(cs: seq<Chunk>, s: Scan)
    requires Balanced(cs) && Run(s, cs).Some?
    requires forall i :: 0 <= i < |s.context| ==> s.context[i].depth < s.depth
    ensures Run(s, cs).value.depth == s.depth
    ensures Run(s, cs).value.context == s.context <==>
            forall i :: 0 <= i < |cs| && !Quiet(cs[i]) ==> ClearedBefore(cs, i, |cs|)
  {
    hide Run, Quiet, Depth, ClearedBefore, Level, StackAt;
    DepthIsLevel(cs, 0);
    assert cs[..|cs|] == cs;
    RunKeepsStack(s, cs, |cs|);
    var at := StackAt(cs, |cs|);
    forall i | 0 <= i < |cs|
      ensures i in at <==> !Quiet(cs[i]) && !ClearedBefore(cs, i, |cs|)
    {
      StackIff(cs, |cs|, i);
    }
    NoMarks(cs, s.depth, at, s.context);
    if at != [] {
      assert at[0] in at;
    }
  }

  lemma NoMarks(cs: seq<Chunk>, depth: int, at: seq<nat>, ctx: seq<Mark>)
    requires forall m :: 0 <= m < |at| ==> at[m] < |cs| && !Quiet(cs[at[m]])
    ensures ctx + MarksAt(cs, depth, at) == ctx <==> at == []
  {
    if at != [] {
      var i := at[|at| - 1];
      assert |Marks(depth + Level(cs, i), cs[i])| > 0;
      assert |MarksAt(cs, depth, at)| > 0;
    }
  }

  /** A mark set before a semicolon is taken back if a block at its depth follows. */
  lemma CaughtMark(cs: seq<Chunk>, name: string)
    requires var open, close := Chunk(None, [], None, None, Open), Chunk(None, [], None, None, Close);
             cs == [open, Chunk(Some(name), [], None, None, Semi), open, close, close]
    ensures !Tame(cs) && forall i :: 0 <= i < |cs| && !Quiet(cs[i]) ==> ClearedBefore(cs, i, |cs|)
  {
    assert !Quiet(cs[1]) && cs[1].delim == Semi;
    assert cs[0].delim == Open && cs[2].delim == Open && cs[3].delim == Close;
    assert Level(cs, 1) == Level(cs, 0) + 1;
    assert Level(cs, 2) == Level(cs, 1);
    assert Level(cs, 3) == Level(cs, 2) + 1;
    assert Level(cs, 4) == Level(cs, 3) - 1;
    assert Clears(cs, 1, 3);
  }

  // ---------------------------------------------------------------- where each edge comes from

  /** The marks of chunk `i` are in force before chunk `n`. */
  ghost predicate Standing(cs: seq<Chunk>, i: nat, n: nat)
    requires n <= |cs|
  {
    i < n && !Quiet(cs[i]) && !ClearedBefore(cs, i, n)
  }

  ghost predicate LastStanding(cs: seq<Chunk>, i: nat, n: nat)
    requires n <= |cs|
  {
    Standing(cs, i, n) && forall k: nat :: Standing(cs, k, n) ==> k <= i
  }

  function Top(ctx: seq<Mark>): seq<Mark> {
    if ctx == [] then [] else [ctx[|ctx| - 1]]
  }

  /**
   The context that chunk `n` is read in, by the text alone: the state it names itself, or else
   what the last chunk with marks in force has set, or else what was in force at the start.
   */
  ghost function Context(s: Scan, cs: seq<Chunk>, n: nat): seq<Mark>
    requires n < |cs|
  {
    if cs[n].state.Some? then [Mark(cs[n].state.value, s.depth + Level(cs, n), "")]
    else if exists i: nat :: LastStanding(cs, i, n) then
      var i: nat :| LastStanding(cs, i, n);
      Top(Marks(s.depth + Level(cs, i), cs[i]))
    else Top(s.context)
  }

  /** The edges of the first `n` chunks, each under its own context; `None` if one of them raises. */
  ghost function Attributed(s: Scan, cs: seq<Chunk>, n: nat): Option<seq<Edge>>
    requires n <= |cs|
  {
    if n == 0 then Some([]) else Both(Attributed(s, cs, n - 1), EdgesOf(Context(s, cs, n - 1), cs[n - 1]))
  }

  /** Only the mark on top matters. */
  lemma EdgesByTop(ctx: seq<Mark>, c: Chunk)
    ensures EdgesOf(ctx, c) == EdgesOf(Top(ctx), c)
  {
  }

  lemma StandingIffStacked(cs: seq<Chunk>, n: nat)
    requires n <= |cs|
    ensures var at := StackAt(cs, n);
            if at == [] then forall i: nat :: !Standing(cs, i, n) else LastStanding(cs, at[|at| - 1], n)
  {
    hide StackAt, ClearedBefore, Quiet;
    var at := StackAt(cs, n);
    StackAscends(cs, n);
    BelowStack(cs, n);
    forall i: nat
      ensures Standing(cs, i, n) <==> i in at
    {
      if i < n {
        StackIff(cs, n, i);
      }
    }
    forall k | k in at
      ensures k <= at[|at| - 1]
    {
    }
  }

  lemma TopOfStack(cs: seq<Chunk>, depth: int, at: seq<nat>, ctx: seq<Mark>)
    requires forall m :: 0 <= m < |at| ==> at[m] < |cs| && !Quiet(cs[at[m]])
    ensures Top(ctx + MarksAt(cs, depth, at)) ==
            if at == [] then Top(ctx) else var i := at[|at| - 1]; Top(Marks(depth + Level(cs, i), cs[i]))
  {
    if at == [] {
      assert ctx + [] == ctx;
    } else {
      var i := at[|at| - 1];
      assert |Marks(depth + Level(cs, i), cs[i])| > 0;
    }
  }

  /** The stack machine reads each chunk in the context that the text gives it. */
  lemma ContextIsTop(s: Scan, cs: seq<Chunk>, n: nat, mid: Scan)
    requires n < |cs| && mid.depth == s.depth + Level(cs, n)
    requires mid.context == s.context + MarksAt(cs, s.depth, StackAt(cs, n))
    ensures Top(mid.context + StateMark(mid.depth, cs[n])) == Context(s, cs, n)
  {
    hide StackAt, Quiet, Level, Marks, MarksAt, LastStanding, Standing;
    var at := StackAt(cs, n);
    StandingIffStacked(cs, n);
    NoneIsLast(cs, n);
    TopOfStack(cs, s.depth, at, s.context);
    if cs[n].state == None {
      assert mid.context + StateMark(mid.depth, cs[n]) == mid.context;
      forall i: nat | at != [] && LastStanding(cs, i, n)
        ensures i == at[|at| - 1]
      {
        OneLast(cs, i, at[|at| - 1], n);
      }
    }
  }

  lemma NoneIsLast(cs: seq<Chunk>, n: nat)
    requires n <= |cs|
    ensures (forall i: nat :: !Standing(cs, i, n)) ==> forall i: nat :: !LastStanding(cs, i, n)
  {
  }

  lemma OneLast(cs: seq<Chunk>, i: nat, j: nat, n: nat)
    requires n <= |cs| && LastStanding(cs, i, n) && LastStanding(cs, j, n)
    ensures i == j
  {
  }

  /**
   Over every text that closes no more than it opens, balanced or not, each edge belongs to the last
   chunk whose marks nothing has taken back, and the machine raises exactly where that gives none.
   */
  lemma {:induction false} EdgesAttributed(s: Scan, cs: seq<Chunk>, n: nat)
    requires n <= |cs|
    requires forall i :: 0 <= i < |s.context| ==> s.context[i].depth < s.depth
    requires forall k :: 0 <= k <= n ==> Level(cs, k) >= 0
    ensures var found := Attributed(s, cs, n);
            if found == None then Run(s, cs[..n]) == None
            else Run(s, cs[..n]).Some? && Run(s, cs[..n]).value.found == s.found + found.value
  {
    hide Level, EdgesOf, Context, Run, MarksAt, StackAt, Both;
    if n == 0 {
      RunNothing(s);
      assert cs[..0] == [];
    } else {
      var before, c := cs[..n - 1], cs[n - 1];
      assert cs[..n] == before + [c];
      EdgesAttributed(s, cs, n - 1);
      RunConcat(s, before, [c]);
      BothEdges(Attributed(s, cs, n - 1), EdgesOf(Context(s, cs, n - 1), c), s.found);
      if Attributed(s, cs, n - 1).Some? {
        RunKeepsStack(s, cs, n - 1);
        NextFinds(s, cs, n - 1, Run(s, before).value);
      }
    }
  }

  lemma RunNothing(s: Scan)
    ensures Run(s, []) == Some(s) && s.found + [] == s.found
  {
  }

  lemma BothEdges(a: Option<seq<Edge>>, b: Option<seq<Edge>>, found: seq<Edge>)
    ensures Both(a, b) == None <==> a == None || b == None
    ensures a.Some? && b.Some? ==> Both(a, b).Some? && found + Both(a, b).value == (found + a.value) + b.value
  {
  }

  lemma NextFinds(s: Scan, cs: seq<Chunk>, n: nat, mid: Scan)
    requires n < |cs| && mid.depth == s.depth + Level(cs, n)
    requires mid.context == s.context + MarksAt(cs, s.depth, StackAt(cs, n))
    ensures var es := EdgesOf(Context(s, cs, n), cs[n]);
            if es == None then Run(mid, [cs[n]]) == None
            else Run(mid, [cs[n]]).Some? && Run(mid, [cs[n]]).value.found == mid.found + es.value
  {
    hide Level, EdgesOf, Context, Run, MarksAt, StackAt, Step;
    RunOne(mid, cs[n]);
    ContextIsTop(s, cs, n, mid);
    EdgesByTop(mid.context + StateMark(mid.depth, cs[n]), cs[n]);
    StepFinds(mid, cs[n]);
  }

  lemma StepFinds(s: Scan, c: Chunk)
    ensures var es := EdgesOf(s.context + StateMark(s.depth, c), c);
            if es == None then Step(s, c) == None else Step(s, c).Some? && Step(s, c).value.found == s.found + es.value
  {
  }

  // ---------------------------------------------------------------- the renderer

  type EdgeTable = map<string, seq<(string, string)>>

  function AddEdge(t: EdgeTable, e: Edge): EdgeTable {
    t[e.event := (if e.event in t then t[e.event] else []) + [(e.source, e.target)]]
  }

  function Record(t: EdgeTable, es: seq<Edge>): EdgeTable {
    if es == [] then t else AddEdge(Record(t, es[..|es| - 1]), es[|es| - 1])
  }

  lemma RecordNone(t: EdgeTable)
    ensures Record(t, []) == t
  {
  }

  lemma {:induction false} RecordConcat(t: EdgeTable, a: seq<Edge>, b: seq<Edge>)
    ensures Record(t, a + b) == Record(Record(t, a), b)
  {
    if b == [] {
      assert a + b == a;
    } else {
      assert (a + b)[..|a + b| - 1] == a + b[..|b| - 1];
      RecordConcat(t, a, b[..|b| - 1]);
    }
  }

  lemma RecordNext(t: EdgeTable, es: seq<Edge>, e: Edge)
    ensures Record(t, es + [e]) == AddEdge(Record(t, es), e)
  {
    assert (es + [e])[..|es|] == es;
  }

  lemma NamedNone(t: EdgeTable, source: string)
    ensures Record(t, Named(source, [])) == t
  {
  }

  lemma NamedNext(t: EdgeTable, source: string, transitions: seq<(string, string)>, k: nat)
    requires k < |transitions|
    ensures Record(t, Named(source, transitions[..k + 1])) ==
            AddEdge(Record(t, Named(source, transitions[..k])), Edge(transitions[k].0, source, transitions[k].1))
  {
    assert transitions[..k + 1][..k] == transitions[..k];
    RecordNext(t, Named(source, transitions[..k]), Edge(transitions[k].0, source, transitions[k].1));
  }

  /** The source and target of the edges for one event, in order. */
  function PairsFor(es: seq<Edge>, event: string): seq<(string, string)> {
    if es == [] then []
    else
      var e := es[|es| - 1];
      PairsFor(es[..|es| - 1], event) + if e.event == event then [(e.source, e.target)] else []
  }

  /** Recording appends to each event's list its own edges, source first, and touches no other. */
  lemma {:induction false} RecordAppends(t: EdgeTable, es: seq<Edge>, event: string)
    ensures event in Record(t, es) <==> event in t || PairsFor(es, event) != []
    ensures event in Record(t, es) ==>
              Record(t, es)[event] == (if event in t then t[event] else []) + PairsFor(es, event)
  {
    if es != [] {
      RecordAppends(t, es[..|es| - 1], event);
    }
  }

  /** The table holds an edge exactly if the edge was found. */
  lemma {:induction false} RecordLists(es: seq<Edge>, e: Edge)
    ensures e in es <==> e.event in Record(map[], es) && (e.source, e.target) in Record(map[], es)[e.event]
  {
    if es != [] {
      RecordLists(es[..|es| - 1], e);
      assert es == es[..|es| - 1] + [es[|es| - 1]];
    }
  }

  /** The three calls for a chunk are one step of the machine. */
  lemma ReadStep(s: Scan, c: Chunk, s': Scan)
    requires EdgesOf(s.context + StateMark(s.depth, c), c).Some?
    requires s'.found == s.found + EdgesOf(s.context + StateMark(s.depth, c), c).value
    requires var ctx := (s.context + StateMark(s.depth, c)) + ReactionMark(s.depth, c);
             match c.delim
             case Open => s'.context == ctx && s'.depth == s.depth + 1
             case Close => s'.context == Pop(ctx, s'.depth) && s'.depth == s.depth - 1
             case Semi => s'.context == ctx && s'.depth == s.depth
    ensures Step(s, c) == Some(s')
  {
    hide EdgesOf, Pop, StateMark, ReactionMark;
    assert (s.context + StateMark(s.depth, c)) + ReactionMark(s.depth, c) == s.context + Marks(s.depth, c);
  }

  class Renderer {
    var context: seq<Mark>
    var depth: int
    var edges: EdgeTable

    constructor ()
      ensures context == [] && depth == 0 && edges == map[]
    {
      context, depth, edges := [], 0, map[];
    }

    method GetState(c: Chunk)
      modifies this`context
      ensures context == old(context) + StateMark(depth, c)
      ensures context == if c.state.Some? then old(context) + [Mark(c.state.value, depth, "")] else old(context)
    {
      if c.state.Some? {
        context := context + [Mark(c.state.value, depth, "")];
      }
    }

    method GetEvent(c: Chunk) returns (ok: bool)
      modifies this`edges
      ensures ok <==> EdgesOf(context, c).Some?
      ensures ok ==> edges == Record(old(edges), EdgesOf(context, c).value)
      ensures !ok <==>
              || (context == [] && (c.transitions != [] || c.transit.Some?))
              || (context != [] && c.transit.Some? && context[|context| - 1].event == "")
      ensures ok ==> exists es :: edges == Record(old(edges), es) && FieldByField(context, c, es)
    {
      EdgesMean(context, c);
      hide Record, Named, FieldByField;
      NamedNone(edges, if context == [] then "" else context[|context| - 1].name);
      for k := 0 to |c.transitions|
        invariant k > 0 ==> context != []
        invariant context != [] ==> edges == Record(old(edges), Named(context[|context| - 1].name, c.transitions[..k]))
        invariant context == [] ==> edges == old(edges)
      {
        if context == [] {
          return false;
        }
        var top := context[|context| - 1];
        var (event, target) := c.transitions[k];
        NamedNext(old(edges), top.name, c.transitions, k);
        edges := AddEdge(edges, Edge(event, top.name, target));
      }
      assert c.transitions[..|c.transitions|] == c.transitions;
      if c.transit.Some? {
        if context == [] {
          return false;
        }
        var top := context[|context| - 1];
        if top.event == "" {
          return false;
        }
        RecordNext(old(edges), Named(top.name, c.transitions), Edge(top.event, top.name, c.transit.value));
        edges := AddEdge(edges, Edge(top.event, top.name, c.transit.value));
      }
      RecordNone(edges);
      return true;
    }

    method GetContext(c: Chunk)
      modifies this`context, this`depth
      ensures var ctx := if c.reaction.Some?
                         then old(context) + [Mark(c.reaction.value.0, old(depth), c.reaction.value.1)] else old(context);
              && context <= ctx
              && (c.delim != Close ==> context == ctx)
              && (forall i :: |context| <= i < |ctx| ==> ctx[i].depth == depth)
              && (c.delim == Close && context != [] ==> context[|context| - 1].depth != depth)
      ensures var ctx := old(context) + ReactionMark(old(depth), c);
              match c.delim
              case Open => context == ctx && depth == old(depth) + 1
              case Close => context == Pop(ctx, depth) && depth == old(depth) - 1
              case Semi => context == ctx && depth == old(depth)
    {
      if c.reaction.Some? {
        context := context + [Mark(c.reaction.value.0, depth, c.reaction.value.1)];
      }
      ghost var ctx := context;
      assert ctx == old(context) + ReactionMark(old(depth), c);
      PopMeans(ctx, depth - 1);
      if c.delim == Open {
        depth := depth + 1;
      }
      if c.delim == Close {
        depth := depth - 1;
        while |context| > 0 && context[|context| - 1].depth == depth
          invariant depth == old(depth) - 1
          invariant Pop(context, depth) == Pop(ctx, depth)
          decreases |context|
        {
          context := context[..|context| - 1];
        }
      }
    }

    /** Reads the chunks one by one; stops where the script raises. */
    method ReadInput(chunks: seq<Chunk>) returns (ok: bool)
      modifies this
      ensures ok <==> Run(Scan(old(context), old(depth), []), chunks).Some?
      ensures ok ==> var s := Run(Scan(old(context), old(depth), []), chunks).value;
                     context == s.context && depth == s.depth && edges == Record(old(edges), s.found)
    {
      hide EdgesOf, Record, Pop, FieldByField, Step, StateMark, ReactionMark, Marks;
      ghost var found := [];
      RecordNone(edges);
      for k := 0 to |chunks|
        invariant Run(Scan(old(context), old(depth), []), chunks) == Run(Scan(context, depth, found), chunks[k..])
        invariant edges == Record(old(edges), found)
      {
        ghost var s := Scan(context, depth, found);
        var c := chunks[k];
        assert chunks[k..][0] == c && chunks[k..][1..] == chunks[k + 1..];
        StepFinds(s, c);
        GetState(c);
        ok := GetEvent(c);
        if !ok {
          return;
        }
        ghost var es := EdgesOf(context, c).value;
        RecordConcat(old(edges), found, es);
        found := found + es;
        GetContext(c);
        ReadStep(s, c, Scan(context, depth, found));
      }
      return true;
    }
  }
}
