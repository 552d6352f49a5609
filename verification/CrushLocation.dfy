/** Packing an OSD's CRUSH location, a list of type and name pairs, into a caller's buffer. */
module CrushLocation {
  import opened MachineInts

  type Pair = (string, string)

  const NUL: char := '\0'
  const ENOTCONN: int32 := 107
  const EINVAL: int32 := 22
  const ERANGE: int32 := 34

  ghost predicate CString(s: string) {
    NUL !in s
  }

  ghost predicate CStrings(loc: seq<Pair>) {
    forall i :: 0 <= i < |loc| ==> CString(loc[i].0) && CString(loc[i].1)
  }

  function EncodePair(p: Pair): string {
    p.0 + [NUL] + p.1 + [NUL]
  }

  function Encode(loc: seq<Pair>): string {
    if loc == [] then "" else Encode(loc[..|loc| - 1]) + EncodePair(loc[|loc| - 1])
  }

  // ---------------------------------------------------------------- reading the buffer back

  /** The length of the C string that starts the text. */
  function StrLen(s: string): (n: nat)
    ensures n <= |s|
  {
    if s == "" || s[0] == NUL then 0 else 1 + StrLen(s[1..])
  }

  /** Takes C strings off the text two by two. */
  function Decode(s: string): seq<Pair>
    decreases |s|
  {
    var n := StrLen(s);
    if n == |s| then []
    else
      var rest := s[n + 1..];
      var m := StrLen(rest);
      if m == |rest| then []
      else [(s[..n], rest[..m])] + Decode(rest[m + 1..])
  }

  lemma {:induction false} StrLenStops(a: string, rest: string)
    requires CString(a)
    ensures StrLen(a + [NUL] + rest) == |a|
  {
    var s := a + [NUL] + rest;
    if a != "" {
      assert s[1..] == a[1..] + [NUL] + rest;
      StrLenStops(a[1..], rest);
    }
  }

  lemma DecodeOne(p: Pair, rest: string)
    requires CString(p.0) && CString(p.1)
    ensures Decode(EncodePair(p) + rest) == [p] + Decode(rest)
  {
    var s := EncodePair(p) + rest;
    var tail := p.1 + [NUL] + rest;
    assert s == p.0 + [NUL] + tail;
    StrLenStops(p.0, tail);
    assert s[|p.0| + 1..] == tail;
    StrLenStops(p.1, rest);
    assert tail[|p.1| + 1..] == rest;
    assert s[..|p.0|] == p.0 && tail[..|p.1|] == p.1;
  }

  lemma {:induction false} DecodeAppended(loc: seq<Pair>, rest: string)
    requires CStrings(loc)
    ensures Decode(Encode(loc) + rest) == loc + Decode(rest)
  {
    hide Decode, Encode, EncodePair;
    if loc == [] {
      EncodeNone(rest);
    } else {
      var init, p := loc[..|loc| - 1], loc[|loc| - 1];
      EncodeLast(loc);
      Regroup(Encode(init), EncodePair(p), rest);
      DecodeAppended(init, EncodePair(p) + rest);
      DecodeOne(p, rest);
      assert init + ([p] + Decode(rest)) == loc + Decode(rest);
    }
  }

  lemma EncodeNone(rest: string)
    ensures Encode([]) + rest == rest
  {
  }

  lemma EncodeLast(loc: seq<Pair>)
    requires loc != []
    ensures Encode(loc) == Encode(loc[..|loc| - 1]) + EncodePair(loc[|loc| - 1])
  {
  }

  lemma Regroup(a: string, b: string, c: string)
    ensures (a + b) + c == a + (b + c)
  {
  }

  /** Reading back what was packed gives the pairs that were packed. */
  lemma DecodeEncode(loc: seq<Pair>)
    requires CStrings(loc)
    ensures Decode(Encode(loc)) == loc
  {
    assert Encode(loc) + "" == Encode(loc);
    DecodeAppended(loc, "");
  }

  /** Each pair lies behind the ones before it: type, zero, name, zero. */
  lemma {:induction false} EncodeLayout(loc: seq<Pair>, k: nat)
    requires k < |loc|
    ensures |Encode(loc[..k + 1])| == |Encode(loc[..k])| + |loc[k].0| + 1 + |loc[k].1| + 1
    ensures Encode(loc[..k + 1]) <= Encode(loc)
    ensures Encode(loc[..k + 1]) == Encode(loc[..k]) + (loc[k].0 + ['\0'] + loc[k].1 + ['\0'])
    decreases |loc|
  {
    assert loc[..k + 1][..k] == loc[..k];
    if k + 1 == |loc| {
      assert loc[..k + 1] == loc;
    } else {
      var init := loc[..|loc| - 1];
      EncodeLayout(init, k);
      assert init[..k + 1] == loc[..k + 1] && init[..k] == loc[..k];
    }
  }

  // ---------------------------------------------------------------- sizes

  lemma {:induction false} EncodeGrows(loc: seq<Pair>, j: nat, k: nat)
    requires j <= k <= |loc|
    ensures |Encode(loc[..j])| + 2 * (k - j) <= |Encode(loc[..k])|
    decreases k
  {
    if j < k {
      assert loc[..k][..k - 1] == loc[..k - 1];
      EncodeGrows(loc, j, k - 1);
    }
  }

  /** The first `m` pairs fit and no more would. */
  ghost predicate LongestFit(loc: seq<Pair>, len: nat, m: nat) {
    m <= |loc| && |Encode(loc[..m])| <= len && (m < |loc| ==> len < |Encode(loc[..m + 1])|)
  }

  // ---------------------------------------------------------------- packing

  /** `a` with `t` written over it from `cur` on. */
  function Splice(a: string, cur: nat, t: string): (r: string)
    requires cur + |t| <= |a|
    ensures |r| == |a|
  {
    a[..cur] + t + a[cur + |t|..]
  }

  lemma SpliceTwice(a: string, cur: nat, t: string, u: string)
    requires cur + |t| + |u| <= |a|
    ensures Splice(Splice(a, cur, t), cur + |t|, u) == Splice(a, cur, t + u)
  {
  }

  method StrCpy(path: array<char>, cur: nat, s: string)
    requires CString(s)
    requires cur + |s| < path.Length
    modifies path
    ensures path[..] == Splice(old(path[..]), cur, s + [NUL])
  {
    for k := 0 to |s|
      invariant forall i :: 0 <= i < path.Length ==> path[i] == if cur <= i < cur + k then s[i - cur] else old(path[i])
    {
      path[cur + k] := s[k];
    }
    path[cur + |s|] := NUL;
  }

  method CopyPair(path: array<char>, cur: nat, p: Pair)
    requires CString(p.0) && CString(p.1)
    requires cur + |EncodePair(p)| <= path.Length
    modifies path
    ensures path[..] == Splice(old(path[..]), cur, EncodePair(p))
  {
    hide Splice;
    StrCpy(path, cur, p.0);
    StrCpy(path, cur + |p.0| + 1, p.1);
    SpliceTwice(old(path[..]), cur, p.0 + [NUL], p.1 + [NUL]);
    assert EncodePair(p) == (p.0 + [NUL]) + (p.1 + [NUL]);
  }

  /** Writing behind a packed prefix packs a longer prefix. */
  lemma SpliceBehind(a: string, done: string, t: string)
    requires |done| + |t| <= |a|
    ensures Splice(done + a[|done|..], |done|, t) == (done + t) + a[|done + t|..]
  {
  }

  lemma EncodeStep(loc: seq<Pair>, k: nat)
    requires k < |loc|
    ensures Encode(loc[..k + 1]) == Encode(loc[..k]) + EncodePair(loc[k])
    ensures |EncodePair(loc[k])| == |loc[k].0| + |loc[k].1| + 2
  {
    assert loc[..k + 1][..k] == loc[..k];
  }

  /** The loop: sizes up every pair, copies those that fit. */
  method Pack(loc: seq<Pair>, path: array?<char>, len: nat) returns (needed: nat, ghost m: nat)
    requires CStrings(loc)
    requires path != null ==> len <= path.Length
    modifies if path != null then {path} else {}
    ensures needed == |Encode(loc)|
    ensures LongestFit(loc, len, m)
    ensures path != null ==> path[..] == Encode(loc[..m]) + old(path[..])[|Encode(loc[..m])|..]
  {
    hide Encode, EncodePair, Splice;
    m, needed := 0, 0;
    var cur := 0;
    NothingPacked(loc);
    for k := 0 to |loc|
      invariant needed == |Encode(loc[..k])|
      invariant m <= k && cur == |Encode(loc[..m])| <= len
      invariant m < k ==> len < |Encode(loc[..m + 1])| <= needed
      invariant path != null ==> path[..] == Encode(loc[..m]) + old(path[..])[|Encode(loc[..m])|..]
    {
      var (kind, name) := loc[k];
      EncodeStep(loc, k);
      needed := needed + |kind| + |name| + 2;
      if needed <= len {
        if path != null {
          CopyPair(path, cur, loc[k]);
          SpliceBehind(old(path[..]), Encode(loc[..k]), EncodePair(loc[k]));
        }
        cur := cur + |kind| + 1;
        cur := cur + |name| + 1;
        m := k + 1;
      }
    }
    assert loc[..|loc|] == loc;
  }

  lemma NothingPacked(loc: seq<Pair>)
    ensures Encode(loc[..0]) == ""
  {
  }

  /**
   `found` is what the client library answers for the OSD; `len` is the caller's word for the buffer.
   The needed size is returned as a C integer.
   */
  method GetOsdCrushLocation(mounted: bool, found: int32, loc: seq<Pair>, path: array?<char>, len: nat)
    returns (ret: int32, ghost m: nat)
    requires CStrings(loc)
    requires path != null ==> len <= path.Length
    modifies if path != null then {path} else {}
    ensures !mounted ==> ret == -ENOTCONN && m == 0
    ensures mounted && path == null && len > 0 ==> ret == -EINVAL && m == 0
    ensures mounted && !(path == null && len > 0) && found != 0 ==> ret == found && m == 0
    ensures mounted && !(path == null && len > 0) && found == 0 ==>
              LongestFit(loc, len, m) &&
              ret == if len == 0 || |Encode(loc)| <= len then Narrow(|Encode(loc)|) else -ERANGE
    ensures m <= |loc| && |Encode(loc[..m])| <= len
    ensures path != null ==> path[..] == Encode(loc[..m]) + old(path[..])[|Encode(loc[..m])|..]
  {
    hide Encode, Narrow;
    NothingPacked(loc);
    if !mounted {
      return -ENOTCONN, 0;
    }
    if path == null && len > 0 {
      return -EINVAL, 0;
    }
    if found != 0 {
      return found, 0;
    }
    var needed;
    needed, m := Pack(loc, path, len);
    if len == 0 {
      return Narrow(needed), m;
    }
    if needed > len {
      return -ERANGE, m;
    }
    return Narrow(needed), m;
  }

  /**
   Asking for the size first, then packing with the size that was answered: everything is packed,
   if and only if the size survives the conversion to a C integer.
   */
  method AskThenPack(loc: seq<Pair>, path: array<char>) returns (size: int32, ret: int32)
    requires CStrings(loc)
    requires |Encode(loc)| <= path.Length
    modifies path
    ensures 0 <= size as int <= path.Length && ret == size && path[..size] == Encode(loc) <==>
            |Encode(loc)| <= INT32_MAX
    ensures |Encode(loc)| <= INT32_MAX ==> Decode(path[..size]) == loc
  {
    hide Decode, Encode;
    ghost var m;
    size, m := GetOsdCrushLocation(true, 0, loc, null, 0);
    ret := size;
    if 0 <= size as int <= path.Length {
      ret, m := GetOsdCrushLocation(true, 0, loc, path, size as int);
      if m < |loc| {
        EncodeGrows(loc, m + 1, |loc|);
      }
      assert loc[..|loc|] == loc;
    }
    DecodeEncode(loc);
  }
}
