/** The handful of Go string primitives the meminfo parsers rely on
    (strings.Fields, strings.TrimSpace, strings.TrimRight with a one-character
    cutset, strings.HasSuffix), written out over `seq<char>`, plus the index
    searches used by the two fixed regular expressions. */
module Text {

  /** unicode.IsSpace: the Latin-1 white space characters and the other
      code points of Unicode's White_Space property. */
  predicate IsSpace(c: char) {
    || c == ' ' || c == '\t' || c == '\n' || c == '\U{000B}' || c == '\U{000C}' || c == '\r'
    || c == '\U{0085}' || c == '\U{00A0}' || c == '\U{1680}'
    || ('\U{2000}' <= c <= '\U{200A}')
    || c == '\U{2028}' || c == '\U{2029}' || c == '\U{202F}' || c == '\U{205F}' || c == '\U{3000}'
  }

  predicate AllSpace(s: string) {
    forall i :: 0 <= i < |s| ==> IsSpace(s[i])
  }

  predicate NoSpace(s: string) {
    forall i :: 0 <= i < |s| ==> !IsSpace(s[i])
  }

  /** Length of the longest prefix of `s` that holds no white space. */
  function WordLen(s: string): (n: nat)
    ensures n <= |s|
    ensures NoSpace(s[..n])
    ensures n < |s| ==> IsSpace(s[n])
  {
    if s == [] || IsSpace(s[0]) then 0 else 1 + WordLen(s[1..])
  }

  /** strings.Fields: the maximal runs of non-space characters, in order. */
  function Fields(s: string): (r: seq<string>)
    ensures forall i :: 0 <= i < |r| ==> r[i] != [] && NoSpace(r[i])
    decreases |s|
  {
    if s == [] then []
    else if IsSpace(s[0]) then Fields(s[1..])
    else
      var n := WordLen(s);
      [s[..n]] + Fields(s[n..])
  }

  /** A string splits into no fields exactly when it is all white space. */
  lemma {:induction false} FieldsEmptyIff(s: string)
    ensures Fields(s) == [] <==> AllSpace(s)
    decreases |s|
  {
    if s != [] && IsSpace(s[0]) {
      FieldsEmptyIff(s[1..]);
      assert AllSpace(s) <==> AllSpace(s[1..]) by {
        if AllSpace(s[1..]) {
          forall i | 0 <= i < |s| ensures IsSpace(s[i]) {
            if i > 0 { assert s[i] == s[1..][i - 1]; }
          }
        }
      }
    }
  }

  /** Space placed between two strings separates their fields. */
  lemma {:induction false} FieldsSplit(a: string, c: char, b: string)
    requires IsSpace(c)
    ensures Fields(a + [c] + b) == Fields(a) + Fields(b)
    decreases |a|
  {
    var s := a + [c] + b;
    if a == [] {
      assert s[1..] == b;
    } else if IsSpace(a[0]) {
      assert s[1..] == a[1..] + [c] + b;
      FieldsSplit(a[1..], c, b);
    } else {
      var n := WordLen(a);
      WordLenPrefix(a, [c] + b);
      assert a + ([c] + b) == s;
      assert s[..n] == a[..n];
      assert s[n..] == a[n..] + [c] + b;
      FieldsSplit(a[n..], c, b);
    }
  }

  lemma {:induction false} WordLenPrefix(a: string, b: string)
    requires b == [] || IsSpace(b[0])
    ensures WordLen(a + b) == WordLen(a)
    decreases |a|
  {
    if a != [] && !IsSpace(a[0]) {
      assert (a + b)[1..] == a[1..] + b;
      WordLenPrefix(a[1..], b);
    }
  }

  lemma {:induction false} WordLenNoSpace(w: string)
    requires NoSpace(w)
    ensures WordLen(w) == |w|
  {
    if w != [] { WordLenNoSpace(w[1..]); }
  }

  /** A non-empty word without white space is its own single field. */
  lemma FieldsOfWord(w: string)
    requires w != [] && NoSpace(w)
    ensures Fields(w) == [w]
  {
    WordLenNoSpace(w);
    assert w[..|w|] == w;
    assert w[|w|..] == [];
  }

  /** Tokens that strings.Fields can return: non-empty and free of white space. */
  predicate IsTokenList(ts: seq<string>) {
    forall i :: 0 <= i < |ts| ==> ts[i] != [] && NoSpace(ts[i])
  }

  /** The tokens joined by single spaces. */
  function Unfields(ts: seq<string>): string {
    if ts == [] then [] else if |ts| == 1 then ts[0] else ts[0] + " " + Unfields(ts[1..])
  }

  /** Splitting the space-joined tokens gives the tokens back. */
  lemma {:induction false} FieldsUnfields(ts: seq<string>)
    requires IsTokenList(ts)
    ensures Fields(Unfields(ts)) == ts
  {
    if |ts| == 1 {
      FieldsOfWord(ts[0]);
    } else if |ts| > 1 {
      assert IsTokenList(ts[1..]) by {
        forall i | 0 <= i < |ts| - 1 ensures ts[1..][i] != [] && NoSpace(ts[1..][i]) {
          assert ts[1..][i] == ts[i + 1];
        }
      }
      FieldsUnfields(ts[1..]);
      FieldsSplit(ts[0], ' ', Unfields(ts[1..]));
      FieldsOfWord(ts[0]);
      assert ts == [ts[0]] + ts[1..];
    }
  }

  /** The part of `s` after its leading white space. */
  function TrimLeftSpace(s: string): string {
    if s == [] || !IsSpace(s[0]) then s else TrimLeftSpace(s[1..])
  }

  /** The part of `s` before its trailing white space. */
  function TrimRightSpace(s: string): string {
    if s == [] || !IsSpace(s[|s| - 1]) then s else TrimRightSpace(s[..|s| - 1])
  }

  /** strings.TrimSpace. */
  function TrimSpace(s: string): string {
    TrimRightSpace(TrimLeftSpace(s))
  }

  /** TrimLeftSpace drops a prefix of white space and stops at the first other character. */
  lemma {:induction false} TrimLeftSpaceSpec(s: string)
    ensures var r := TrimLeftSpace(s);
      && |r| <= |s| && r == s[|s| - |r|..]
      && AllSpace(s[..|s| - |r|])
      && (r == [] || !IsSpace(r[0]))
    decreases |s|
  {
    if s != [] && IsSpace(s[0]) {
      TrimLeftSpaceSpec(s[1..]);
      var r := TrimLeftSpace(s);
      assert s[1..][..|s| - 1 - |r|] == s[1..|s| - |r|];
      assert forall i :: 1 <= i < |s| - |r| ==> s[i] == s[1..|s| - |r|][i - 1];
    }
  }

  /** TrimRightSpace drops a suffix of white space and stops at the last other character. */
  lemma {:induction false} TrimRightSpaceSpec(s: string)
    ensures var r := TrimRightSpace(s);
      && |r| <= |s| && r == s[..|r|]
      && AllSpace(s[|r|..])
      && (r == [] || !IsSpace(r[|r| - 1]))
    decreases |s|
  {
    if s != [] && IsSpace(s[|s| - 1]) {
      var init := s[..|s| - 1];
      TrimRightSpaceSpec(init);
      var r := TrimRightSpace(s);
      assert forall i :: |r| <= i < |s| - 1 ==> s[i] == init[|r|..][i - |r|];
      assert init[..|r|] == s[..|r|];
    }
  }

  /** A line trims to "" exactly when it is all white space. */
  lemma TrimSpaceEmptyIff(s: string)
    ensures TrimSpace(s) == [] <==> AllSpace(s)
  {
    TrimLeftSpaceSpec(s);
    var l := TrimLeftSpace(s);
    TrimRightSpaceSpec(l);
    if TrimSpace(s) == [] {
      assert AllSpace(l) by {
        assert l[0..] == l;
      }
      assert l == [];
      forall i | 0 <= i < |s| ensures IsSpace(s[i]) {
        assert s[i] == s[..|s| - |l|][i];
      }
    }
  }

  /** Trimming before splitting changes nothing: strings.Fields ignores
      white space at either end anyway. */
  lemma FieldsTrimSpace(s: string)
    ensures Fields(TrimSpace(s)) == Fields(s)
  {
    FieldsTrimLeft(s);
    var l := TrimLeftSpace(s);
    var r := TrimRightSpace(l);
    TrimRightSpaceSpec(l);
    assert l == r + l[|r|..];
    FieldsTrailingSpace(r, l[|r|..]);
  }

  lemma FieldsTrailingSpace(r: string, tail: string)
    requires AllSpace(tail)
    ensures Fields(r + tail) == Fields(r)
  {
    if tail == [] {
      assert r + tail == r;
    } else {
      var rest := tail[1..];
      assert r + tail == r + [tail[0]] + rest;
      FieldsSplit(r, tail[0], rest);
      assert AllSpace(rest) by {
        forall i | 0 <= i < |rest| ensures IsSpace(rest[i]) {
          assert rest[i] == tail[i + 1];
        }
      }
      FieldsEmptyIff(rest);
      assert Fields(r) + [] == Fields(r);
    }
  }

  lemma {:induction false} FieldsTrimLeft(s: string)
    ensures Fields(TrimLeftSpace(s)) == Fields(s)
    decreases |s|
  {
    if s != [] && IsSpace(s[0]) {
      FieldsTrimLeft(s[1..]);
    }
  }

  /** strings.TrimRight(s, [c]): every trailing `c` removed. */
  function TrimRightChar(s: string, c: char): (r: string)
    ensures |r| <= |s| && r == s[..|r|]
    ensures forall i :: |r| <= i < |s| ==> s[i] == c
    ensures r == [] || r[|r| - 1] != c
  {
    if s == [] || s[|s| - 1] != c then s else TrimRightChar(s[..|s| - 1], c)
  }

  /** TrimRight removes a whole run of the trimmed character, however long. */
  lemma {:induction false} TrimRightCharSuffix(w: string, run: string, c: char)
    requires forall i :: 0 <= i < |run| ==> run[i] == c
    ensures TrimRightChar(w + run, c) == TrimRightChar(w, c)
    decreases |run|
  {
    if run == [] {
      assert w + run == w;
    } else {
      var shorter := run[..|run| - 1];
      assert (w + run)[..|w + run| - 1] == w + shorter;
      TrimRightCharSuffix(w, shorter, c);
    }
  }

  /** strings.HasSuffix. */
  predicate HasSuffix(s: string, suffix: string) {
    |suffix| <= |s| && s[|s| - |suffix|..] == suffix
  }

  /** Index of the first `c` in `s`, or |s| when there is none. */
  function FindFirst(s: string, c: char): (i: nat)
    ensures i <= |s|
    ensures i < |s| ==> s[i] == c
    ensures forall k :: 0 <= k < i ==> s[k] != c
  {
    if s == [] then 0
    else if s[0] == c then 0
    else 1 + FindFirst(s[1..], c)
  }

  /** A sequence is its part before `k`, its element at `k` and the rest. */
  lemma SplitAt<T>(s: seq<T>, k: int)
    requires 0 <= k < |s|
    ensures s == s[..k] + [s[k]] + s[k + 1..]
  {
  }

  /** Index of the last `c` in `s`, or -1 when there is none. */
  function FindLast(s: string, c: char): (j: int)
    ensures -1 <= j < |s|
    ensures 0 <= j ==> s[j] == c
    ensures forall k :: j < k < |s| ==> s[k] != c
  {
    if s == [] then -1
    else if s[|s| - 1] == c then |s| - 1
    else FindLast(s[..|s| - 1], c)
  }

  predicate IsDigit(c: char) {
    '0' <= c <= '9'
  }

  /** The maximal run of ASCII digits at the start of `s` (`[0-9]*`, greedy). */
  function DigitRun(s: string): (d: string)
    ensures |d| <= |s| && d == s[..|d|]
    ensures forall i :: 0 <= i < |d| ==> IsDigit(d[i])
    ensures |d| < |s| ==> !IsDigit(s[|d|])
  {
    if s == [] || !IsDigit(s[0]) then [] else [s[0]] + DigitRun(s[1..])
  }

  predicate OccursAt(s: string, pat: string, i: int) {
    0 <= i && i + |pat| <= |s| && s[i..i + |pat|] == pat
  }

  /** Start of the last occurrence of `pat` in `s`, or -1 when there is none. */
  function LastOccurrence(s: string, pat: string): (p: int)
    ensures -1 <= p
    ensures p >= 0 ==> OccursAt(s, pat, p)
    ensures forall q :: p < q && OccursAt(s, pat, q) ==> false
  {
    if |s| < |pat| then -1
    else if s[|s| - |pat|..] == pat then |s| - |pat|
    else
      var p := LastOccurrence(s[..|s| - 1], pat);
      assert forall q :: p < q && OccursAt(s, pat, q) ==> q < |s| - |pat| && OccursAt(s[..|s| - 1], pat, q) by {
        forall q | p < q && OccursAt(s, pat, q) ensures q < |s| - |pat| && OccursAt(s[..|s| - 1], pat, q) {
          assert s[..|s| - 1][q..q + |pat|] == s[q..q + |pat|];
        }
      }
      assert p >= 0 ==> s[..|s| - 1][p..p + |pat|] == s[p..p + |pat|];
      p
  }
}
