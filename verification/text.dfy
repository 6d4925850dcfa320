/** The string operations the chat client applies to names, inputs and channel
    names: `trim`, `toLowerCase` and `replace(/\s+/g, '-')`. */
module Text {

  /** White space as ECMAScript defines it for `String.prototype.trim` and for
      the regular-expression class `\s`: the WhiteSpace and LineTerminator
      code points. */
  predicate IsSpace(c: char) {
    || c == '\t' || c == '\n' || c == '\U{000B}' || c == '\U{000C}' || c == '\r'
    || c == ' ' || c == '\U{00A0}' || c == '\U{1680}'
    || ('\U{2000}' <= c <= '\U{200A}')
    || c == '\U{2028}' || c == '\U{2029}' || c == '\U{202F}' || c == '\U{205F}'
    || c == '\U{3000}' || c == '\U{FEFF}'
  }

  predicate AllSpace(s: string) {
    forall i :: 0 <= i < |s| ==> IsSpace(s[i])
  }

  predicate NoSpace(s: string) {
    forall i :: 0 <= i < |s| ==> !IsSpace(s[i])
  }

  /** `s.trimStart()`: the suffix left after the leading white space. */
  function TrimStart(s: string): (r: string)
    ensures |r| <= |s| && r == s[|s| - |r|..]
    ensures AllSpace(s[..|s| - |r|])
    ensures r == [] || !IsSpace(r[0])
    ensures |s| > 0 && IsSpace(s[0]) ==> |r| < |s|
    decreases |s|
  {
    if |s| > 0 && IsSpace(s[0]) then
      var r := TrimStart(s[1..]);
      assert s[1..][|s| - 1 - |r|..] == s[|s| - |r|..];
      assert s[..|s| - |r|] == [s[0]] + s[1..][..|s| - 1 - |r|];
      AllSpaceCons(s[0], s[1..][..|s| - 1 - |r|]);
      r
    else
      assert s[..0] == [];
      s
  }

  lemma AllSpaceCons(c: char, t: string)
    requires IsSpace(c) && AllSpace(t)
    ensures AllSpace([c] + t)
  {
    assert forall i :: 0 < i < |t| + 1 ==> ([c] + t)[i] == t[i - 1];
  }

  /** `s.trimEnd()`: the prefix left before the trailing white space. */
  function TrimEnd(s: string): (r: string)
    ensures |r| <= |s| && r == s[..|r|]
    ensures AllSpace(s[|r|..])
    ensures r == [] || !IsSpace(r[|r| - 1])
    decreases |s|
  {
    if |s| > 0 && IsSpace(s[|s| - 1]) then
      var r := TrimEnd(s[..|s| - 1]);
      assert s[|r|..] == s[..|s| - 1][|r|..] + [s[|s| - 1]];
      AllSpaceSnoc(s[..|s| - 1][|r|..], s[|s| - 1]);
      r
    else
      assert s[|s|..] == [];
      s
  }

  lemma AllSpaceSnoc(t: string, c: char)
    requires AllSpace(t) && IsSpace(c)
    ensures AllSpace(t + [c])
  {
    assert forall i :: 0 <= i < |t| ==> (t + [c])[i] == t[i];
  }

  /** `s.trim()`. It is empty exactly when `s` is blank, and otherwise starts
      and ends with a character that is not white space. */
  function Trim(s: string): (r: string)
    ensures |r| <= |s|
    ensures r == [] <==> AllSpace(s)
    ensures r == [] || (!IsSpace(r[0]) && !IsSpace(r[|r| - 1]))
  {
    TrimEdges(s);
    TrimEnd(TrimStart(s))
  }

  /** Only an all-white-space string loses everything to `trimStart`. */
  lemma {:induction false} TrimStartEmpty(s: string)
    ensures TrimStart(s) == [] <==> AllSpace(s)
    decreases |s|
  {
    if |s| > 0 && IsSpace(s[0]) {
      TrimStartEmpty(s[1..]);
      assert forall i :: 0 <= i < |s| - 1 ==> s[1..][i] == s[i + 1];
      assert AllSpace(s) <==> AllSpace(s[1..]);
    }
  }

  /** Only an all-white-space string loses everything to `trimEnd`. */
  lemma {:induction false} TrimEndEmpty(s: string)
    ensures TrimEnd(s) == [] <==> AllSpace(s)
    decreases |s|
  {
    if |s| > 0 && IsSpace(s[|s| - 1]) {
      var f := s[..|s| - 1];
      TrimEndEmpty(f);
      assert forall i :: 0 <= i < |f| ==> f[i] == s[i];
      assert AllSpace(s) <==> AllSpace(f);
    }
  }

  lemma TrimEdges(s: string)
    ensures var r := TrimEnd(TrimStart(s));
            (r == [] <==> AllSpace(s)) && (r == [] || (!IsSpace(r[0]) && !IsSpace(r[|r| - 1])))
  {
    var t := TrimStart(s);
    TrimStartEmpty(s);
    TrimEndEmpty(t);
    if t != [] {
      assert !AllSpace(t);
      var r := TrimEnd(t);
      assert r[0] == t[0];
    }
  }

  /** A string JavaScript treats as empty once trimmed (`!s.trim()`): every
      character is white space (BlankIsEmptyTrim). */
  predicate Blank(s: string) {
    AllSpace(s)
  }

  lemma BlankIsEmptyTrim(s: string)
    ensures Blank(s) <==> Trim(s) == []
  {
  }

  /** `toLowerCase` on the ASCII letters; every other character is kept. */
  function LowerChar(c: char): char {
    if 'A' <= c <= 'Z' then (c as int + 32) as char else c
  }

  /** `s.toLowerCase()`, character by character. */
  function ToLower(s: string): (r: string)
    ensures |r| == |s|
    ensures forall i :: 0 <= i < |s| ==> r[i] == LowerChar(s[i])
    decreases |s|
  {
    if s == [] then [] else [LowerChar(s[0])] + ToLower(s[1..])
  }

  /** `s.replace(/\s+/g, '-')`: every maximal run of white space becomes one
      hyphen and every other character is kept. */
  function DashRuns(s: string): (r: string)
    ensures NoSpace(r)
    ensures |r| <= |s|
    ensures s != [] ==> r != []
    decreases |s|
  {
    if s == [] then []
    else if IsSpace(s[0]) then
      var rest := DashRuns(TrimStart(s));
      NoSpaceCons('-', rest);
      "-" + rest
    else
      var rest := DashRuns(s[1..]);
      NoSpaceCons(s[0], rest);
      [s[0]] + rest
  }

  lemma NoSpaceCons(c: char, t: string)
    requires !IsSpace(c) && NoSpace(t)
    ensures NoSpace([c] + t)
  {
    assert forall i :: 0 < i < |t| + 1 ==> ([c] + t)[i] == t[i - 1];
  }

  /** The name under which an account is filed: `name.toLowerCase().trim()`.
      It is empty exactly for a blank name, and otherwise has no white space
      at either end. */
  function Normalize(name: string): (r: string)
    ensures |r| <= |name|
    ensures r == [] <==> Blank(name)
    ensures r == [] || (!IsSpace(r[0]) && !IsSpace(r[|r| - 1]))
  {
    ToLowerBlank(name);
    Trim(ToLower(name))
  }

  lemma ToLowerBlank(s: string)
    ensures Blank(ToLower(s)) <==> Blank(s)
  {
    forall i | 0 <= i < |s|
      ensures IsSpace(ToLower(s)[i]) <==> IsSpace(s[i])
    {
      LowerCharKeepsSpace(s[i]);
    }
  }

  // ---------------------------------------------------------------------------
  // Lemmas

  lemma LowerCharKeepsSpace(c: char)
    ensures IsSpace(LowerChar(c)) <==> IsSpace(c)
    ensures LowerChar(LowerChar(c)) == LowerChar(c)
  {
  }

  lemma ToLowerIdempotent(s: string)
    ensures ToLower(ToLower(s)) == ToLower(s)
  {
    forall i | 0 <= i < |s|
      ensures ToLower(ToLower(s))[i] == ToLower(s)[i]
    {
      LowerCharKeepsSpace(s[i]);
    }
  }

  lemma ToLowerAppend(a: string, b: string)
    ensures ToLower(a + b) == ToLower(a) + ToLower(b)
  {
    forall i | 0 <= i < |a + b|
      ensures ToLower(a + b)[i] == (ToLower(a) + ToLower(b))[i]
    {
      if i < |a| {
        assert (a + b)[i] == a[i];
      } else {
        assert (a + b)[i] == b[i - |a|];
      }
    }
  }

  lemma ToLowerKeepsAllSpace(s: string)
    requires AllSpace(s)
    ensures AllSpace(ToLower(s))
  {
    forall i | 0 <= i < |s|
      ensures IsSpace(ToLower(s)[i])
    {
      LowerCharKeepsSpace(s[i]);
    }
  }

  /** Lower-casing first or trimming first gives the same string, since
      `toLowerCase` never turns white space into something else or back. */
  lemma {:induction false} TrimStartLower(s: string)
    ensures TrimStart(ToLower(s)) == ToLower(TrimStart(s))
    decreases |s|
  {
    if |s| > 0 {
      LowerCharKeepsSpace(s[0]);
      assert ToLower(s)[1..] == ToLower(s[1..]);
      if IsSpace(s[0]) {
        TrimStartLower(s[1..]);
      }
    }
  }

  lemma {:induction false} TrimEndLower(s: string)
    ensures TrimEnd(ToLower(s)) == ToLower(TrimEnd(s))
    decreases |s|
  {
    if |s| > 0 {
      LowerCharKeepsSpace(s[|s| - 1]);
      assert ToLower(s)[..|s| - 1] == ToLower(s[..|s| - 1]);
      if IsSpace(s[|s| - 1]) {
        TrimEndLower(s[..|s| - 1]);
      }
    }
  }

  lemma TrimLower(s: string)
    ensures Trim(ToLower(s)) == ToLower(Trim(s))
  {
    TrimStartLower(s);
    TrimEndLower(TrimStart(s));
  }

  /** Trimming a trimmed string changes nothing. */
  lemma TrimIdempotent(s: string)
    ensures Trim(Trim(s)) == Trim(s)
  {
  }

  /** Leading white space of any length is dropped by `trimStart`. */
  lemma {:induction false} TrimStartSkipsSpace(w: string, s: string)
    requires AllSpace(w)
    ensures TrimStart(w + s) == TrimStart(s)
    decreases |w|
  {
    if w != [] {
      assert (w + s)[0] == w[0] && (w + s)[1..] == w[1..] + s;
      assert AllSpace(w[1..]) by {
        assert forall i :: 0 <= i < |w| - 1 ==> w[1..][i] == w[i + 1];
      }
      TrimStartSkipsSpace(w[1..], s);
    } else {
      assert w + s == s;
    }
  }

  lemma {:induction false} TrimEndSkipsSpace(s: string, w: string)
    requires AllSpace(w)
    ensures TrimEnd(s + w) == TrimEnd(s)
    decreases |w|
  {
    if w != [] {
      assert (s + w)[|s + w| - 1] == w[|w| - 1];
      assert (s + w)[..|s + w| - 1] == s + w[..|w| - 1];
      TrimEndSkipsSpace(s, w[..|w| - 1]);
    } else {
      assert s + w == s;
    }
  }

  /** Trimming the start of a concatenation only reaches into the second part
      when the first part is blank. */
  lemma {:induction false} TrimStartAppend(s: string, v: string)
    ensures TrimStart(s + v) == if TrimStart(s) == [] then TrimStart(v) else TrimStart(s) + v
    decreases |s|
  {
    if s == [] {
      assert s + v == v;
    } else {
      assert (s + v)[0] == s[0] && (s + v)[1..] == s[1..] + v;
      if IsSpace(s[0]) {
        TrimStartAppend(s[1..], v);
      }
    }
  }

  /** White space around a string does not change its trimmed form. */
  lemma TrimIgnoresPadding(w1: string, s: string, w2: string)
    requires AllSpace(w1) && AllSpace(w2)
    ensures Trim(w1 + s + w2) == Trim(s)
  {
    assert w1 + s + w2 == w1 + (s + w2);
    TrimStartSkipsSpace(w1, s + w2);
    TrimStartAppend(s, w2);
    var t := TrimStart(s);
    if t == [] {
      TrimStartSkipsSpace(w2, []);
      assert w2 + [] == w2;
    } else {
      TrimEndSkipsSpace(t, w2);
    }
  }

  /** The account name ignores letter case and surrounding white space. */
  lemma NormalizeIgnoresCaseAndPadding(w1: string, s: string, w2: string)
    requires AllSpace(w1) && AllSpace(w2)
    ensures Normalize(w1 + s + w2) == Normalize(s)
    ensures Normalize(ToLower(s)) == Normalize(s)
  {
    ToLowerAppend(w1 + s, w2);
    ToLowerAppend(w1, s);
    ToLowerKeepsAllSpace(w1);
    ToLowerKeepsAllSpace(w2);
    TrimIgnoresPadding(ToLower(w1), ToLower(s), ToLower(w2));
    ToLowerIdempotent(s);
  }

  /** Normalizing a normalized name changes nothing. */
  lemma NormalizeIdempotent(s: string)
    ensures Normalize(Normalize(s)) == Normalize(s)
  {
    TrimLower(Trim(ToLower(s)));
    TrimIdempotent(ToLower(s));
    ToLowerIdempotent(Trim(ToLower(s)));
    TrimLower(s);
    ToLowerIdempotent(Trim(s));
  }

  /** A string without white space passes `replace(/\s+/g, '-')` unchanged. */
  lemma {:induction false} DashRunsKeepsWords(s: string)
    requires NoSpace(s)
    ensures DashRuns(s) == s
    decreases |s|
  {
    if s != [] {
      DashRunsKeepsWords(s[1..]);
    }
  }

  /** A non-empty white-space run followed by a word start collapses into one
      hyphen: together with `DashRunsKeepsWords` this pins the replacement down. */
  lemma DashRunsCollapsesRun(w: string, v: string)
    requires w != [] && AllSpace(w)
    requires v == [] || !IsSpace(v[0])
    ensures DashRuns(w + v) == "-" + DashRuns(v)
  {
    TrimStartSkipsSpace(w, v);
    assert (w + v)[0] == w[0];
  }

  /** A non-space character before the rest is copied to the output. */
  lemma DashRunsCopiesWordChar(c: char, v: string)
    requires !IsSpace(c)
    ensures DashRuns([c] + v) == [c] + DashRuns(v)
  {
    assert ([c] + v)[1..] == v;
  }

  lemma DashRunsIdempotent(s: string)
    ensures DashRuns(DashRuns(s)) == DashRuns(s)
  {
    DashRunsKeepsWords(DashRuns(s));
  }

  /** The replacement only adds hyphens, so an all-lower-case input stays so. */
  lemma {:induction false} DashRunsKeepsLower(s: string)
    requires ToLower(s) == s
    ensures ToLower(DashRuns(s)) == DashRuns(s)
    decreases |s|
  {
    if s != [] {
      assert ToLower(s[1..]) == s[1..] by {
        assert forall i :: 0 <= i < |s| - 1 ==> s[1..][i] == s[i + 1];
      }
      if IsSpace(s[0]) {
        var t := TrimStart(s);
        assert ToLower(t) == t by {
          assert forall i :: 0 <= i < |t| ==> t[i] == s[|s| - |t| + i];
        }
        DashRunsKeepsLower(t);
        ToLowerAppend("-", DashRuns(t));
      } else {
        DashRunsKeepsLower(s[1..]);
        ToLowerAppend([s[0]], DashRuns(s[1..]));
      }
    }
  }
}
