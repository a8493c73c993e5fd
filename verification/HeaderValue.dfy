/**
 The values of headers, and how net/internet/http/headers.cpp cleans them.
 */
module HeaderValue {
  import opened HeaderNames
  import opened Text

  predicate IsSpace(c: char) {
    IsBlank(c) || c == '\r' || c == '\n'
  }

  predicate ValueChar(c: char) {
    c == '\t' || !IsControl(c)
  }

  // Line ends are only allowed where the value is folded, that is before a blank, or at the very end.
  predicate Foldable(v: string) {
    forall i :: 0 <= i < |v| ==> FoldableAt(v, i)
  }

  predicate FoldableAt(v: string, i: nat)
    requires i < |v|
  {
    if v[i] == '\r' then i + 1 < |v| ==> v[i + 1] == '\n'
    else if v[i] == '\n' then i + 1 < |v| ==> IsBlank(v[i + 1])
    else ValueChar(v[i])
  }

  // The parts of v between white space.
  function Words(v: string): (words: seq<string>)
    ensures v != "" && !IsSpace(v[|v| - 1]) ==> words != []
  {
    if v == "" then []
    else
      var n := |v| - 1;
      var words := Words(v[..n]);
      if IsSpace(v[n]) then words
      else if n == 0 || IsSpace(v[n - 1]) then words + [[v[n]]]
      else words[..|words| - 1] + [words[|words| - 1] + [v[n]]]
  }

  function Join(words: seq<string>): string {
    if words == [] then ""
    else if |words| == 1 then words[0]
    else Join(words[..|words| - 1]) + " " + words[|words| - 1]
  }

  datatype Cleaned = Clean(text: string) | Unclean

  // The words of the value with one blank between them; there must be one at least.
  function Tidied(v: string): Cleaned {
    if Foldable(v) && Words(v) != [] then Clean(Join(Words(v))) else Unclean
  }

  lemma {:induction false} JoinNext(words: seq<string>, c: char)
    ensures Join(words + [[c]]) == if words == [] then [c] else Join(words) + " " + [c]
    ensures words != [] ==> Join(words[..|words| - 1] + [words[|words| - 1] + [c]]) == Join(words) + [c]
  {
    assert (words + [[c]])[..|words|] == words;
    if |words| > 1 {
      var n := |words| - 1;
      assert (words[..n] + [words[n] + [c]])[..n] == words[..n];
    }
  }

  lemma {:induction false} JoinSome(words: seq<string>)
    requires forall i :: 0 <= i < |words| ==> words[i] != ""
    ensures Join(words) == "" <==> words == []
  {
    if |words| > 1 {
      assert |Join(words)| == |Join(words[..|words| - 1])| + 1 + |words[|words| - 1]|;
    }
  }

  lemma {:induction false} WordsSome(v: string)
    ensures forall i :: 0 <= i < |Words(v)| ==> Words(v)[i] != ""
  {
    if v != "" {
      WordsSome(v[..|v| - 1]);
    }
  }

  datatype State = InWord | AfterBlank | AfterCR | AfterLF

  // The state after c.
  function Entered(c: char): State {
    if c == '\r' then AfterCR else if c == '\n' then AfterLF else if IsBlank(c) then AfterBlank else InWord
  }

  // What the next character does to the words.
  lemma {:induction false} NextChar(v: string, i: nat)
    requires i < |v|
    ensures var text := Join(Words(v[..i]));
            Join(Words(v[..i + 1])) ==
              if IsSpace(v[i]) then text
              else if i > 0 && !IsSpace(v[i - 1]) then text + [v[i]]
              else if text == "" then [v[i]]
              else text + " " + [v[i]]
  {
    var w := Words(v[..i]);
    assert v[..i + 1][..i] == v[..i];
    assert i > 0 && !IsSpace(v[i - 1]) ==> w != [] by {
      assert i > 0 ==> v[..i][i - 1] == v[i - 1];
    }
    JoinNext(w, v[i]);
    WordsSome(v[..i]);
    JoinSome(w);
  }

  // And to the conditions on line ends.
  lemma {:induction false} FoldableNext(v: string, i: nat)
    requires i < |v| && Foldable(v[..i])
    ensures Foldable(v[..i + 1]) <==>
              if i > 0 && v[i - 1] == '\r' then v[i] == '\n'
              else if i > 0 && v[i - 1] == '\n' then IsBlank(v[i])
              else v[i] == '\r' || v[i] == '\n' || ValueChar(v[i])
    ensures Foldable(v) ==> Foldable(v[..i + 1])
  {
    var p := v[..i + 1];
    forall k | 0 <= k < i
      ensures k < i - 1 ==> FoldableAt(p, k)
      ensures k == i - 1 && v[k] != '\r' && v[k] != '\n' ==> FoldableAt(p, k)
    {
      assert FoldableAt(v[..i], k);
    }
    if Foldable(v) {
      forall k | 0 <= k <= i ensures FoldableAt(p, k) {
        assert FoldableAt(v, k);
      }
    }
    if Foldable(p) && i > 0 {
      assert FoldableAt(p, i - 1);
    }
    if Foldable(p) {
      assert FoldableAt(p, i);
    }
  }

  predicate Allowed(state: State, c: char) {
    match state
    case AfterCR => c == '\n'
    case AfterLF => IsBlank(c)
    case _ => c == '\r' || c == '\n' || ValueChar(c)
  }

  // The output after c.
  function Extended(state: State, c: char, out: string): string {
    if IsSpace(c) then out
    else if state == InWord || out == "" then out + [c]
    else out + " " + [c]
  }

  // The state and the output tell of the first i characters.
  ghost predicate Cleans(value: string, i: nat, state: State, out: string) {
    && i <= |value| && Foldable(value[..i]) && out == Join(Words(value[..i]))
    && state == if i == 0 then InWord else Entered(value[i - 1])
  }

  lemma {:induction false} CleansNext(value: string, i: nat, state: State, out: string)
    requires Cleans(value, i, state, out) && i < |value|
    ensures if Allowed(state, value[i]) then Cleans(value, i + 1, Entered(value[i]), Extended(state, value[i], out))
            else !Foldable(value)
  {
    NextChar(value, i);
    FoldableNext(value, i);
    assert out == "" ==> out + [value[i]] == [value[i]];
    if i == 0 {
      assert value[..0] == "";
    }
  }

  lemma {:induction false} CleansAll(value: string, state: State, out: string)
    requires Cleans(value, |value|, state, out)
    ensures Tidied(value) == if out == "" then Unclean else Clean(out)
  {
    assert value[..|value|] == value;
    WordsSome(value);
    JoinSome(Words(value));
  }

  // The body of the loop of clean.
  method TakeChar(state: State, c: char, dest: array<char>, d: nat) returns (ok: bool, state': State, d': nat)
    requires d + (if state == InWord then 0 else 1) < dest.Length
    modifies dest
    ensures ok == Allowed(state, c)
    ensures ok ==>
              state' == Entered(c) &&
              d' + (if state' == InWord then 0 else 1) <= d + (if state == InWord then 0 else 1) + 1
    ensures ok ==> d' <= dest.Length && dest[..d'] == Extended(state, c, old(dest[..d]))
  {
    ok, state', d' := true, state, d;
    match state {
      case InWord =>
        if c == '\r' {
          state' := AfterCR;
        } else if c == '\n' {
          state' := AfterLF;
        } else if !ValueChar(c) {
          ok := false;
        } else if IsBlank(c) {
          state' := AfterBlank;
        } else {
          d' := Put(dest, d, c);
        }
      case AfterBlank =>
        if c == '\r' {
          state' := AfterCR;
        } else if c == '\n' {
          state' := AfterLF;
        } else if !ValueChar(c) {
          ok := false;
        } else if !IsBlank(c) {
          if d > 0 {
            d' := Put(dest, d, ' ');
          }
          d' := Put(dest, d', c);
          state' := InWord;
        }
      case AfterCR =>
        ok := c == '\n';
        state' := AfterLF;
      case AfterLF =>
        ok := IsBlank(c);
        state' := AfterBlank;
    }
  }

  /** headers::clean */
  method CleanValue(value: string) returns (r: Cleaned)
    ensures r == Tidied(value)
  {
    var dest := new char[|value|];
    var d: nat, i: nat, state := 0, 0, InWord;
    while i < |value|
      invariant d + (if state == InWord then 0 else 1) <= i <= |value| && Cleans(value, i, state, dest[..d])
    {
      CleansNext(value, i, state, dest[..d]);
      var ok;
      ok, state, d := TakeChar(state, value[i], dest, d);
      if !ok {
        return Unclean;
      }
      i := i + 1;
    }
    CleansAll(value, state, dest[..d]);
    if d == 0 {
      return Unclean;
    }
    return Clean(dest[..d]);
  }

  // ---------------------------------------------------------------- clean values

  // No control characters, no blank at either end, and single blanks within.
  ghost predicate Neat(s: string) {
    forall i :: 0 <= i < |s| ==> NeatAt(s, i)
  }

  predicate NeatAt(s: string, i: nat)
    requires i < |s|
  {
    !IsControl(s[i]) && (s[i] == ' ' ==> 0 < i < |s| - 1 && s[i - 1] != ' ')
  }

  lemma {:induction false} NeatAppend(text: string, c: char)
    requires Neat(text) && !IsControl(c) && c != ' '
    ensures Neat([c]) && Neat(text + [c]) && (text != "" ==> Neat(text + " " + [c]))
  {
    if text != "" {
      assert NeatAt(text, |text| - 1);
    }
    forall i | 0 <= i < |text|
      ensures NeatAt(text + [c], i) && NeatAt(text + " " + [c], i)
    {
      assert NeatAt(text, i);
    }
  }

  lemma {:induction false} JoinNeat(v: string, i: nat)
    requires Foldable(v) && i <= |v|
    ensures Foldable(v[..i]) && Neat(Join(Words(v[..i])))
  {
    if i > 0 {
      JoinNeat(v, i - 1);
      NextChar(v, i - 1);
      FoldableNext(v, i - 1);
      if !IsSpace(v[i - 1]) {
        assert FoldableAt(v, i - 1);
        NeatAppend(Join(Words(v[..i - 1])), v[i - 1]);
      }
    }
  }

  lemma {:induction false} NeatPrefix(s: string, i: nat)
    requires Neat(s) && i <= |s|
    ensures Foldable(s[..i]) && Join(Words(s[..i])) == if i > 0 && s[i - 1] == ' ' then s[..i - 1] else s[..i]
  {
    if i > 0 {
      NeatPrefix(s, i - 1);
      NextChar(s, i - 1);
      FoldableNext(s, i - 1);
      assert NeatAt(s, i - 1) && (i > 1 ==> NeatAt(s, i - 2));
      if i > 1 && s[i - 2] == ' ' {
        assert s[..i] == s[..i - 2] + " " + [s[i - 1]];
        assert |s[..i - 2]| > 0;
      } else {
        assert s[..i] == s[..i - 1] + [s[i - 1]];
      }
    }
  }

  /** What clean produces is neat, and it leaves exactly the neat values that are not empty as they are. */
  lemma {:induction false} TidiedNeat(v: string)
    requires Tidied(v).Clean?
    ensures Neat(Tidied(v).text) && Tidied(v).text != ""
  {
    JoinNeat(v, |v|);
    assert v[..|v|] == v;
    WordsSome(v);
    JoinSome(Words(v));
  }

  lemma {:induction false} NeatFixed(s: string)
    ensures Tidied(s) == Clean(s) <==> Neat(s) && s != ""
  {
    if Neat(s) && s != "" {
      NeatPrefix(s, |s|);
      assert NeatAt(s, |s| - 1);
      assert s[..|s|] == s;
      WordsSome(s);
      JoinSome(Words(s));
    }
    if Tidied(s) == Clean(s) {
      TidiedNeat(s);
    }
  }

  lemma {:induction false} TidiedTwice(v: string)
    requires Tidied(v).Clean?
    ensures Tidied(Tidied(v).text) == Tidied(v)
  {
    TidiedNeat(v);
    NeatFixed(Tidied(v).text);
  }
}
