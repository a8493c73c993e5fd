/**
 parse_path of net/internet/http/connection.cpp: one pass over the path of a request decodes its escapes, drops
 empty and dot segments and resolves the double dots.  The specification does these things one after the other.
 */
module Path {
  import opened Text

  datatype Error = BadRequest | Forbidden

  datatype Result = Ok(path: string) | Fail(error: Error)

  // ---------------------------------------------------------------- decoding

  function HexDigit(c: char): (v: int)
    ensures -1 <= v < 16
  {
    if '0' <= c <= '9' then (c - '0') as int
    else if 'A' <= c <= 'F' then 10 + (c - 'A') as int
    else if 'a' <= c <= 'f' then 10 + (c - 'a') as int
    else -1
  }

  // The value of the first two characters, or -1.
  function Hex(s: string): (v: int)
    ensures -1 <= v < 256 && (v >= 0 ==> |s| >= 2)
  {
    if |s| < 2 || HexDigit(s[0]) < 0 || HexDigit(s[1]) < 0 then -1 else 16 * HexDigit(s[0]) + HexDigit(s[1])
  }

  // The text up to the first malformed escape, if there is one.
  datatype Decoded = Decoded(text: string, whole: bool)

  function Decode(s: string): Decoded {
    if s == "" then Decoded("", true)
    else if s[0] == '%' then
      var h := Hex(s[1..]);
      if h < 0 then Decoded("", false)
      else
        var r := Decode(s[3..]);
        Decoded([h as char] + r.text, r.whole)
    else
      var r := Decode(s[1..]);
      Decoded([s[0]] + r.text, r.whole)
  }

  // ---------------------------------------------------------------- resolving

  predicate Kept(segment: string) {
    segment != "" && segment != "." && segment != ".." && '/' !in segment
  }

  // The segments kept so far, and whether there has ever been one; or the walk has left the root upwards.
  datatype Walk = Walk(stack: seq<string>, started: bool) | Outside

  function Enter(w: Walk, segment: string): Walk {
    if w.Outside? || segment == "" || segment == "." then w
    else if segment == ".." then
      if !w.started then w else if w.stack == [] then Outside else Walk(w.stack[..|w.stack| - 1], true)
    else Walk(w.stack + [segment], true)
  }

  function WalkAll(w: Walk, segments: seq<string>): Walk {
    if segments == [] then w else Enter(WalkAll(w, segments[..|segments| - 1]), segments[|segments| - 1])
  }

  const START := Walk([], false)

  // The walk through the segments that a slash ends, and what follows the last slash.

  function Walked(text: string): Walk {
    var s := Split('/', text);
    WalkAll(START, s[..|s| - 1])
  }

  function Current(text: string): string {
    var s := Split('/', text);
    s[|s| - 1]
  }

  function Render(stack: seq<string>): string {
    if stack == [] then "" else Render(stack[..|stack| - 1]) + "/" + stack[|stack| - 1]
  }

  function Finish(w: Walk, last: string): Result {
    match Enter(w, last)
    case Outside => Fail(Forbidden)
    case Walk(stack, started) =>
      if !started then Ok("")
      else if last == "" || last == "." then Ok(Render(stack) + "/")
      else if last == ".." then Ok(if stack == [] then "" else Render(stack) + "/")
      else Ok(Render(stack))
  }

  // Decode everything, then resolve the segments.  The escape that is malformed counts only if the walk has not
  // gone astray before it.
  function PathOf(p: string): Result {
    if |p| <= 1 then Ok("")
    else
      var d := Decode(p[1..]);
      var w := Walked(d.text);
      if d.whole then Finish(w, Current(d.text)) else Fail(if w.Outside? then Forbidden else BadRequest)
  }

  // ---------------------------------------------------------------- lemmas

  lemma {:induction false} OneMore(text: string, c: char)
    ensures Walked(text + [c]) == if c == '/' then Enter(Walked(text), Current(text)) else Walked(text)
    ensures Current(text + [c]) == if c == '/' then "" else Current(text) + [c]
  {
    SplitNext('/', text, c);
  }

  lemma {:induction false} NoWayBack(text: string, more: string)
    requires Walked(text).Outside?
    ensures Walked(text + more).Outside?
    decreases |more|
  {
    if more == "" {
      assert text + more == text;
    } else {
      OneMore(text, more[0]);
      assert text + more == text + [more[0]] + more[1..];
      NoWayBack(text + [more[0]], more[1..]);
    }
  }

  function Joined(text: string, d: Decoded): Decoded {
    Decoded(text + d.text, d.whole)
  }

  lemma {:induction false} DecodeAt(p: string, i: nat)
    requires i < |p|
    ensures Decode(p[i..]) ==
              if p[i] != '%' then Decoded([p[i]] + Decode(p[i+1..]).text, Decode(p[i+1..]).whole)
              else if Hex(p[i+1..]) < 0 then Decoded("", false)
              else Decoded([Hex(p[i+1..]) as char] + Decode(p[i+3..]).text, Decode(p[i+3..]).whole)
  {
    assert p[i..][0] == p[i] && p[i..][1..] == p[i+1..];
    if Hex(p[i+1..]) >= 0 {
      assert p[i..][3..] == p[i+3..];
    }
  }

  ghost predicate Stacked(stack: seq<string>) {
    forall i :: 0 <= i < |stack| ==> Kept(stack[i])
  }

  // ---------------------------------------------------------------- the single pass

  datatype State = Initial | Dot | DotDot | Segment | Slash | SlashDot | SlashDotDot

  // How many characters of the current segment, and the slash before it, are not yet written.
  function Pending(state: State): nat {
    match state
    case Segment => 0
    case Initial => 1
    case Slash => 1
    case Dot => 2
    case SlashDot => 2
    case DotDot => 3
    case SlashDotDot => 3
  }

  // What the state and the output say about the text read so far.
  ghost predicate Represents(state: State, out: string, w: Walk, segment: string) {
    && w.Walk? && Stacked(w.stack) && (!w.started ==> w.stack == [])
    && (state == Segment <==> Kept(segment))
    && (state.Initial? || state.Dot? || state.DotDot? ==> !w.started)
    && (state.Slash? || state.SlashDot? || state.SlashDotDot? ==> w.started)
    && (state.Initial? || state.Slash? ==> segment == "")
    && (state.Dot? || state.SlashDot? ==> segment == ".")
    && (state.DotDot? || state.SlashDotDot? ==> segment == "..")
    && out == if state == Segment then Render(w.stack) + "/" + segment else Render(w.stack)
  }

  lemma {:induction false} KeptLonger(segment: string, c: char)
    requires c != '/' && (Kept(segment) || segment == ".." || (c != '.' && (segment == "" || segment == ".")))
    ensures Kept(segment + [c])
  {
    var longer := segment + [c];
    assert longer[|segment|] == c && forall i :: 0 <= i < |segment| ==> longer[i] == segment[i];
    assert |segment| == 1 && segment[0] == '.' ==> segment == ".";
  }

  // Goes back over the last segment and its slash.
  method Pop(dest: array<char>, n: nat, ghost stack: seq<string>) returns (n': nat)
    requires n <= dest.Length && dest[..n] == Render(stack) && Stacked(stack) && stack != []
    ensures n' < n && dest[..n'] == Render(stack[..|stack| - 1])
  {
    ghost var rest, last := Render(stack[..|stack| - 1]), stack[|stack| - 1];
    assert Kept(last) && dest[..n] == rest + "/" + last;
    n' := n - 1;
    while n' > 0 && dest[n'] != '/'
      invariant |rest| <= n' < n
    {
      assert dest[..n][|rest|] == '/';
      n' := n' - 1;
    }
    assert dest[..n'] == dest[..n][..n'];
  }

  // Writes a slash, the dots that were held back and the character after them.
  method Open(dest: array<char>, n: nat, dots: string, c: char) returns (n': nat)
    requires n + 1 + |dots| < dest.Length && |dots| <= 2
    modifies dest
    ensures n' == n + 2 + |dots| && dest[..n'] == old(dest[..n]) + "/" + (dots + [c])
  {
    n' := Put(dest, n, '/');
    if |dots| > 0 {
      n' := Put(dest, n', dots[0]);
    }
    if |dots| > 1 {
      n' := Put(dest, n', dots[1]);
    }
    n' := Put(dest, n', c);
  }

  // One character, as it was read or decoded; its walk and segment are those of the text before it.
  method Take(state: State, c: char, dest: array<char>, n: nat, ghost w: Walk, ghost segment: string)
    returns (ok: bool, state': State, n': nat)
    requires n + Pending(state) < dest.Length && Represents(state, dest[..n], w, segment)
    modifies dest
    ensures ok == (c == '/' ==> Enter(w, segment).Walk?)
    ensures ok ==> n' + Pending(state') <= n + Pending(state) + 1
    ensures ok && c == '/' ==> Represents(state', dest[..n'], Enter(w, segment), "")
    ensures ok && c != '/' ==> Represents(state', dest[..n'], w, segment + [c])
  {
    if c == '/' {
      ok, state', n' := TakeSlash(state, dest, n, w, segment);
    } else {
      ok := true;
      state', n' := TakeOther(state, c, dest, n, w, segment);
    }
  }

  // A slash, in any state.
  method TakeSlash(state: State, dest: array<char>, n: nat, ghost w: Walk, ghost segment: string)
    returns (ok: bool, state': State, n': nat)
    requires n + Pending(state) < dest.Length && Represents(state, dest[..n], w, segment)
    ensures ok == Enter(w, segment).Walk?
    ensures ok ==>
              n' + Pending(state') <= n + Pending(state) + 1 &&
              Represents(state', dest[..n'], Enter(w, segment), "")
  {
    ok, state', n' := true, state, n;
    match state {
      case Initial =>
      case Dot =>
        state' := Initial;
      case DotDot =>
        state' := Initial;
      case Segment =>
        state' := Slash;
      case Slash =>
      case SlashDot =>
        state' := Slash;
      case SlashDotDot =>
        if n == 0 {
          ok := false;
        } else {
          n' := Pop(dest, n, w.stack);
          state' := Slash;
        }
    }
  }

  // Any other character.
  method TakeOther(state: State, c: char, dest: array<char>, n: nat, ghost w: Walk, ghost segment: string)
    returns (state': State, n': nat)
    requires c != '/' && n + Pending(state) < dest.Length && Represents(state, dest[..n], w, segment)
    modifies dest
    ensures n' + Pending(state') <= n + Pending(state) + 1 && Represents(state', dest[..n'], w, segment + [c])
  {
    state', n' := state, n;
    if !(c == '.' && state in {Initial, Dot, Slash, SlashDot}) {
      KeptLonger(segment, c);
    }
    match state {
      case Initial =>
        if c == '.' {
          state' := Dot;
        } else {
          n' := Open(dest, n, "", c);
          state' := Segment;
        }
      case Dot =>
        if c == '.' {
          state' := DotDot;
        } else {
          n' := Open(dest, n, ".", c);
          state' := Segment;
        }
      case DotDot =>
        n' := Open(dest, n, "..", c);
        state' := Segment;
      case Segment =>
        assert Render(w.stack) + "/" + segment + [c] == Render(w.stack) + "/" + (segment + [c]);
        n' := Put(dest, n, c);
      case Slash =>
        if c == '.' {
          state' := SlashDot;
        } else {
          n' := Open(dest, n, "", c);
          state' := Segment;
        }
      case SlashDot =>
        if c == '.' {
          state' := SlashDotDot;
        } else {
          n' := Open(dest, n, ".", c);
          state' := Segment;
        }
      case SlashDotDot =>
        n' := Open(dest, n, "..", c);
        state' := Segment;
    }
  }

  // What the end of the path leaves in the output.
  method Close(state: State, dest: array<char>, n: nat, ghost w: Walk, ghost segment: string) returns (r: Result)
    requires n + Pending(state) <= dest.Length && Represents(state, dest[..n], w, segment)
    modifies dest
    ensures r == Finish(w, segment)
  {
    var n' := n;
    match state {
      case Initial => return Ok("");
      case Dot => return Ok("");
      case DotDot => return Ok("");
      case Segment =>
        assert (w.stack + [segment])[..|w.stack|] == w.stack;
      case Slash =>
        n' := Put(dest, n, '/');
      case SlashDot =>
        n' := Put(dest, n, '/');
      case SlashDotDot =>
        if n == 0 {
          return Fail(Forbidden);
        }
        n' := Pop(dest, n, w.stack);
        if n' > 0 {
          n' := Put(dest, n', '/');
        }
    }
    return Ok(dest[..n']);
  }

  // The next character, decoded, and where the one after it begins.
  method Read(p: string, src: nat, ghost text: string) returns (ok: bool, c: char, src': nat)
    requires src < |p|
    ensures !ok ==> Joined(text, Decode(p[src..])) == Decoded(text, false)
    ensures ok ==> src < src' <= |p| && Joined(text, Decode(p[src..])) == Joined(text + [c], Decode(p[src'..]))
  {
    ok, c, src' := true, p[src], src;
    DecodeAt(p, src);
    if c == '%' {
      var h := Hex(p[src + 1..]);
      if h < 0 {
        return false, c, src';
      }
      c := h as char;
      src' := src' + 2;
    }
    src' := src' + 1;
    assert text + ([c] + Decode(p[src'..]).text) == text + [c] + Decode(p[src'..]).text;
  }

  /** `p` is what stands before the query, its first character being the slash that begins every path. */
  method ParsePath(p: string) returns (r: Result)
    ensures r == PathOf(p)
  {
    if |p| <= 1 {
      return Ok("");
    }
    var dest := new char[|p|];
    var n: nat, src: nat, state := 0, 1, Initial;
    ghost var text := "";
    assert Split('/', "") == [""];
    while src < |p|
      invariant 0 < src <= |p| && n + Pending(state) <= src
      invariant Represents(state, dest[..n], Walked(text), Current(text))
      invariant Decode(p[1..]) == Joined(text, Decode(p[src..]))
    {
      var ok, c;
      ok, c, src := Read(p, src, text);
      if !ok {
        return Fail(BadRequest);
      }
      OneMore(text, c);
      ok, state, n := Take(state, c, dest, n, Walked(text), Current(text));
      text := text + [c];
      if !ok {
        NoWayBack(text, Decode(p[src..]).text);
        return Fail(Forbidden);
      }
    }
    assert p[src..] == "" && text + "" == text;
    r := Close(state, dest, n, Walked(text), Current(text));
  }

  // ---------------------------------------------------------------- which segments remain

  predicate Begun(s: seq<string>) {
    exists i :: 0 <= i < |s| && Kept(s[i])
  }

  // How far the segments lead down from the root; double dots lead up, once there has been a segment.
  ghost function Height(s: seq<string>): int {
    if s == [] then 0
    else
      var n := |s| - 1;
      Height(s[..n]) + if Kept(s[n]) then 1 else if s[n] == ".." && Begun(s[..n]) then -1 else 0
  }

  ghost predicate Leaves(s: seq<string>) {
    exists n :: 0 <= n <= |s| && Height(s[..n]) < 0
  }

  // The segment leads from height k to the next one, and no double dots lead back.
  ghost predicate Lasts(s: seq<string>, k: nat, i: nat) {
    && i < |s| && Kept(s[i]) && Height(s[..i]) == k
    && forall n :: i < n <= |s| ==> Height(s[..n]) > k
  }

  ghost predicate Remains(s: seq<string>, k: nat, segment: string) {
    exists i: nat :: Lasts(s, k, i) && s[i] == segment
  }

  ghost predicate AllRemain(s: seq<string>, stack: seq<string>) {
    |stack| == Height(s) && forall k :: 0 <= k < |stack| ==> Remains(s, k, stack[k])
  }

  lemma {:induction false} StillRemains(s: seq<string>, k: nat, segment: string)
    requires s != [] && Remains(s[..|s| - 1], k, segment) && Height(s) > k
    ensures Remains(s, k, segment)
  {
    var f := s[..|s| - 1];
    var i: nat :| Lasts(f, k, i) && f[i] == segment;
    assert forall n :: 0 <= n <= |f| ==> f[..n] == s[..n];
    assert s[..|s|] == s;
    assert Lasts(s, k, i);
  }

  lemma {:induction false} BegunNext(s: seq<string>)
    requires s != []
    ensures Begun(s) <==> Begun(s[..|s| - 1]) || Kept(s[|s| - 1])
  {
    var f := s[..|s| - 1];
    if Begun(f) {
      var i :| 0 <= i < |f| && Kept(f[i]);
      assert Kept(s[i]);
    }
    assert forall i :: 0 <= i < |f| ==> f[i] == s[i];
  }

  lemma {:induction false} LeavesNext(s: seq<string>)
    requires s != []
    ensures Leaves(s) <==> Leaves(s[..|s| - 1]) || Height(s) < 0
  {
    var f := s[..|s| - 1];
    assert s[..|s|] == s && forall n :: 0 <= n <= |f| ==> f[..n] == s[..n];
    if Leaves(f) {
      var n :| 0 <= n <= |f| && Height(f[..n]) < 0;
      assert Height(s[..n]) < 0;
    }
  }

  /**
   The walk leaves the root if and only if some beginning has more double dots than segments before them; otherwise the
   segments that remain are those from which no double dots lead back.
   */
  lemma {:induction false} WalkExact(s: seq<string>)
    requires forall i :: 0 <= i < |s| ==> '/' !in s[i]
    ensures var w := WalkAll(START, s);
            if Leaves(s) then w.Outside? else w.Walk? && w.started == Begun(s) && AllRemain(s, w.stack)
  {
    if s == [] {
      assert s[..0] == [];
    } else {
      var n := |s| - 1;
      WalkExact(s[..n]);
      BegunNext(s);
      LeavesNext(s);
      var w, w' := WalkAll(START, s[..n]), WalkAll(START, s);
      if !Leaves(s) {
        assert w'.stack == (if Kept(s[n]) then w.stack + [s[n]]
                            else if s[n] == ".." && w.started then w.stack[..|w.stack| - 1] else w.stack);
        forall k | 0 <= k < |w'.stack|
          ensures Remains(s, k, w'.stack[k])
        {
          if k < |w.stack| {
            StillRemains(s, k, w.stack[k]);
          } else {
            assert s[..|s|] == s && Lasts(s, k, n);
          }
        }
      }
    }
  }

  lemma {:induction false} SplitPlain(s: string)
    ensures forall i :: 0 <= i < |Split('/', s)| ==> '/' !in Split('/', s)[i]
  {
    if s != "" {
      SplitPlain(s[..|s| - 1]);
    }
  }

  /** What parse_path makes of a path without malformed escapes, told by the segments between its slashes. */
  lemma {:induction false} PathExact(p: string) returns (stack: seq<string>)
    requires |p| > 1 && Decode(p[1..]).whole
    ensures var s := Split('/', Decode(p[1..]).text);
            var last := s[|s| - 1];
            if Leaves(s) then PathOf(p) == Fail(Forbidden)
            else
              AllRemain(s, stack) &&
              PathOf(p) == Ok(if !Begun(s) || (stack == [] && last == "..") then ""
                              else if Kept(last) then Render(stack) else Render(stack) + "/")
  {
    var s := Split('/', Decode(p[1..]).text);
    SplitPlain(Decode(p[1..]).text);
    WalkExact(s);
    var w := WalkAll(START, s);
    stack := if w.Walk? then w.stack else [];
  }

  const SMALL_HEX := "0123456789abcdef"
  const CAPITAL_HEX := "0123456789ABCDEF"

  /** The digits of an escape may be small or capital. */
  lemma {:induction false} HexDigits(c: char, v: nat)
    ensures HexDigit(c) == v <==> v < 16 && (SMALL_HEX[v] == c || CAPITAL_HEX[v] == c)
  {
  }

  // ---------------------------------------------------------------- what comes out

  predicate Octets(s: string) {
    forall i :: 0 <= i < |s| ==> s[i] as int < 256
  }

  /** Empty, or a slash and then kept segments with one slash between them, and perhaps one after the last. */
  predicate Normal(path: string) {
    path == "" ||
    (path[0] == '/' &&
     var s := Split('/', path[1..]);
     var n := |s| - 1;
     (forall i :: 0 <= i < n ==> Kept(s[i])) && (s[n] == "" || Kept(s[n])))
  }

  ghost predicate Clean(segments: seq<string>) {
    forall i :: 0 <= i < |segments| ==> Octets(segments[i]) && '/' !in segments[i]
  }

  lemma {:induction false} DecodeOctets(s: string)
    requires Octets(s)
    ensures Octets(Decode(s).text)
    decreases |s|
  {
    if s != "" {
      if s[0] != '%' {
        DecodeOctets(s[1..]);
      } else if Hex(s[1..]) >= 0 {
        DecodeOctets(s[3..]);
      }
    }
  }

  lemma {:induction false} SplitClean(s: string)
    requires Octets(s)
    ensures Clean(Split('/', s))
  {
    if s != "" {
      SplitClean(s[..|s| - 1]);
    }
  }

  lemma {:induction false} WalkClean(segments: seq<string>)
    requires Clean(segments)
    ensures var w := WalkAll(START, segments); w.Walk? ==> Stacked(w.stack) && Clean(w.stack)
  {
    if segments != [] {
      WalkClean(segments[..|segments| - 1]);
      EnterClean(WalkAll(START, segments[..|segments| - 1]), segments[|segments| - 1]);
    }
  }

  lemma {:induction false} EnterClean(w: Walk, segment: string)
    requires w.Walk? ==> Stacked(w.stack) && Clean(w.stack)
    requires Octets(segment) && '/' !in segment
    ensures var w' := Enter(w, segment); w'.Walk? ==> Stacked(w'.stack) && Clean(w'.stack)
  {
  }

  // Putting the slashes back undoes the splitting, and the other way round for kept segments.

  lemma {:induction false} RenderSplit(s: string)
    ensures Render(Split('/', s)) == "/" + s
  {
    if s != "" {
      var n := |s| - 1;
      var r := Split('/', s[..n]);
      RenderSplit(s[..n]);
      assert s == s[..n] + [s[n]];
      if s[n] == '/' {
        assert (r + [""])[..|r|] == r;
        assert Render(Split('/', s)) == Render(r) + "/" + "";
      } else {
        var m := |r| - 1;
        assert Split('/', s)[..m] == r[..m];
        assert Render(r[..m]) + "/" + (r[m] + [s[n]]) == Render(r[..m]) + "/" + r[m] + [s[n]];
      }
    } else {
      assert [""][..0] == [];
      assert Render([""]) == "" + "/" + "";
    }
  }

  lemma {:induction false} SplitRender(stack: seq<string>)
    requires Clean(stack) && stack != []
    ensures Render(stack) != "" && Render(stack)[0] == '/' && Split('/', Render(stack)[1..]) == stack
  {
    var n := |stack| - 1;
    var rest := Render(stack[..n]);
    if n == 0 {
      assert Render(stack)[1..] == "" + stack[0];
      SplitMore('/', "", stack[0]);
      assert "" + stack[0] == stack[0];
    } else {
      SplitRender(stack[..n]);
      assert Render(stack)[1..] == rest[1..] + ['/'] + stack[n];
      OnePart('/', rest[1..], stack[n]);
      assert stack == stack[..n] + [stack[n]];
    }
  }

  lemma {:induction false} RenderNormal(stack: seq<string>)
    requires Stacked(stack) && Clean(stack)
    ensures Normal(Render(stack)) && Normal(Render(stack) + "/")
  {
    if stack == [] {
      assert Split('/', "/"[1..]) == [""];
    } else {
      SplitRender(stack);
      var r := Render(stack);
      assert (r + "/")[1..] == r[1..] + ['/'];
      assert (r[1..] + ['/'])[..|r| - 1] == r[1..];
      assert Split('/', (r + "/")[1..]) == stack + [""];
    }
  }

  lemma {:induction false} RenderOctets(stack: seq<string>)
    requires Clean(stack)
    ensures Octets(Render(stack)) && Octets(Render(stack) + "/")
  {
    if stack != [] {
      RenderOctets(stack[..|stack| - 1]);
    }
  }

  lemma {:induction false} FinishNormal(w: Walk, last: string)
    requires var w' := Enter(w, last); w'.Walk? ==> Stacked(w'.stack) && Clean(w'.stack)
    ensures var r := Finish(w, last); r.Ok? ==> Normal(r.path) && Octets(r.path)
  {
    var w' := Enter(w, last);
    if w'.Walk? {
      RenderNormal(w'.stack);
      RenderOctets(w'.stack);
    }
  }

  /** Whatever parse_path accepts comes out in normal form. */
  lemma {:induction false} OutputNormal(p: string)
    requires Octets(p) && PathOf(p).Ok?
    ensures Normal(PathOf(p).path) && Octets(PathOf(p).path)
  {
    if |p| > 1 {
      var d := Decode(p[1..]);
      DecodeOctets(p[1..]);
      var s := Split('/', d.text);
      SplitClean(d.text);
      var n := |s| - 1;
      WalkClean(s[..n]);
      EnterClean(WalkAll(START, s[..n]), s[n]);
      FinishNormal(WalkAll(START, s[..n]), s[n]);
    }
  }
}
