/** String operations the planner relies on, with the meaning Python gives
    them: `str.strip()`, `str.lstrip(c)`, `str.lower()`, the `in` substring
    test, `str.split(sep)` and `sep.join(parts)`. Characters are treated as
    ASCII: only ASCII whitespace is stripped and only A-Z are lowercased. */
module Text {
  import opened Options

  // ---------------------------------------------------------------------
  // Whitespace and strip()
  // ---------------------------------------------------------------------

  /** The ASCII characters Python's `str.isspace()` accepts: space, the
      control characters 9..13 (\t \n \v \f \r) and the separators 28..31. */
  predicate IsSpace(c: char) {
    c == ' ' || (9 <= c as int <= 13) || (28 <= c as int <= 31)
  }

  predicate AllSpace(s: string) {
    forall i :: 0 <= i < |s| ==> IsSpace(s[i])
  }

  /** Neither the first nor the last character is whitespace. */
  predicate NoEdgeSpace(s: string) {
    s == [] || (!IsSpace(s[0]) && !IsSpace(s[|s| - 1]))
  }

  /** `s` is `s[..i] + r + s[i + |r|..]` with whitespace on both sides of `r`. */
  predicate Framed(s: string, r: string, i: int) {
    && 0 <= i <= |s| - |r|
    && s[i..i + |r|] == r
    && AllSpace(s[..i])
    && AllSpace(s[i + |r|..])
  }

  /** Drops leading whitespace. */
  function TrimStart(s: string): (r: string)
    ensures |r| <= |s| && r == s[|s| - |r|..]
    ensures AllSpace(s[..|s| - |r|])
    ensures r == [] || !IsSpace(r[0])
    decreases |s|
  {
    if |s| > 0 && IsSpace(s[0]) then
      var r := TrimStart(s[1..]);
      var cut := |s| - |r|;
      assert s[1..][cut - 1..] == s[cut..];
      assert AllSpace(s[..cut]) by {
        forall k | 0 <= k < cut ensures IsSpace(s[..cut][k]) {
          if k > 0 { assert s[..cut][k] == s[1..][..cut - 1][k - 1]; }
        }
      }
      r
    else s
  }

  /** Drops trailing whitespace. */
  function TrimEnd(s: string): (r: string)
    ensures |r| <= |s| && r == s[..|r|]
    ensures AllSpace(s[|r|..])
    ensures r == [] || !IsSpace(r[|r| - 1])
    decreases |s|
  {
    if |s| > 0 && IsSpace(s[|s| - 1]) then
      var r := TrimEnd(s[..|s| - 1]);
      assert s[..|s| - 1][..|r|] == s[..|r|];
      assert AllSpace(s[|r|..]) by {
        forall k | |r| <= k < |s| ensures IsSpace(s[k]) {
          if k < |s| - 1 { assert s[k] == s[..|s| - 1][|r|..][k - |r|]; }
        }
      }
      r
    else s
  }

  /** Python's `s.strip()`: the infix of `s` left after removing whitespace
      from both ends. */
  function Strip(s: string): (r: string)
    ensures NoEdgeSpace(r)
    ensures exists i :: Framed(s, r, i)
  {
    TrimsFrame(s);
    TrimEnd(TrimStart(s))
  }

  /** Trimming the start and then the end leaves a text framed by the
      removed whitespace, with no whitespace at its own edges. */
  lemma TrimsFrame(s: string)
    ensures NoEdgeSpace(TrimEnd(TrimStart(s)))
    ensures Framed(s, TrimEnd(TrimStart(s)), |s| - |TrimStart(s)|)
  {
    var t := TrimStart(s);
    var r := TrimEnd(t);
    EdgesOfPrefix(t, r);
    FrameOfSlices(s, t, r);
  }

  /** A prefix of a text that does not start with whitespace, itself not
      ending with whitespace, has no whitespace at its edges. */
  lemma EdgesOfPrefix(t: string, r: string)
    requires t == [] || !IsSpace(t[0])
    requires |r| <= |t| && r == t[..|r|] && (r == [] || !IsSpace(r[|r| - 1]))
    ensures NoEdgeSpace(r)
  {
    assert r != [] ==> r[0] == t[0];
  }

  /** A suffix `t` of `s` after whitespace, and a prefix `r` of `t` before
      whitespace, frame `r` inside `s`. */
  lemma FrameOfSlices(s: string, t: string, r: string)
    requires |t| <= |s| && t == s[|s| - |t|..] && AllSpace(s[..|s| - |t|])
    requires |r| <= |t| && r == t[..|r|] && AllSpace(t[|r|..])
    ensures Framed(s, r, |s| - |t|)
  {
    var i := |s| - |t|;
    assert s[i..i + |r|] == t[..|r|];
    assert s[i + |r|..] == t[|r|..];
  }

  /** Leading whitespace in front of a text that does not start with
      whitespace is exactly what `TrimStart` removes. */
  lemma {:induction false} TrimStartSkips(a: string, x: string)
    requires AllSpace(a) && (x == [] || !IsSpace(x[0]))
    ensures TrimStart(a + x) == x
    decreases |a|
  {
    if a == [] {
      assert a + x == x;
    } else {
      assert (a + x)[0] == a[0];
      assert (a + x)[1..] == a[1..] + x;
      TrimStartSkips(a[1..], x);
    }
  }

  /** Trailing whitespace behind a text that does not end with whitespace
      is exactly what `TrimEnd` removes. */
  lemma {:induction false} TrimEndSkips(x: string, b: string)
    requires AllSpace(b) && (x == [] || !IsSpace(x[|x| - 1]))
    ensures TrimEnd(x + b) == x
    decreases |b|
  {
    if b == [] {
      assert x + b == x;
    } else {
      var s := x + b;
      assert s[|s| - 1] == b[|b| - 1];
      assert s[..|s| - 1] == x + b[..|b| - 1];
      TrimEndSkips(x, b[..|b| - 1]);
    }
  }

  /** Whatever surrounds a text with no whitespace at its edges with
      whitespace, `Strip` gives that text back: the framing is unique. */
  lemma StripUnique(a: string, m: string, b: string)
    requires AllSpace(a) && AllSpace(b) && NoEdgeSpace(m)
    ensures Strip(a + m + b) == m
  {
    if m == [] {
      assert a + m + b == (a + b) + [];
      assert AllSpace(a + b) by {
        forall k | 0 <= k < |a + b| ensures IsSpace((a + b)[k]) {
          if k < |a| { assert (a + b)[k] == a[k]; } else { assert (a + b)[k] == b[k - |a|]; }
        }
      }
      TrimStartSkips(a + b, []);
    } else {
      assert a + m + b == a + (m + b);
      assert (m + b)[0] == m[0];
      TrimStartSkips(a, m + b);
      TrimEndSkips(m, b);
    }
  }

  lemma StripOfStripped(s: string)
    requires NoEdgeSpace(s)
    ensures Strip(s) == s
  {
    StripUnique([], s, []);
    assert [] + s + [] == s;
  }

  /** Stripping twice is stripping once. */
  lemma StripIdempotent(s: string)
    ensures Strip(Strip(s)) == Strip(s)
  {
    StripOfStripped(Strip(s));
  }

  /** A line strips to the empty string exactly when it is all whitespace. */
  lemma StripEmptyIffBlank(s: string)
    ensures Strip(s) == [] <==> AllSpace(s)
  {
    if AllSpace(s) {
      StripUnique(s, [], []);
      assert s + [] + [] == s;
    } else {
      var i :| Framed(s, Strip(s), i);
      if Strip(s) == [] {
        forall k | 0 <= k < |s| ensures IsSpace(s[k]) {
          if k < i { assert s[..i][k] == s[k]; } else { assert s[i..][k - i] == s[k]; }
        }
        assert false;
      }
    }
  }

  /** Every character of `Strip(s)` is a character of `s`. */
  lemma StripChars(s: string, c: char)
    requires c in Strip(s)
    ensures c in s
  {
    var r := Strip(s);
    TrimsFrame(s);
    var i := |s| - |TrimStart(s)|;
    var k :| 0 <= k < |r| && r[k] == c;
    assert r[k] == s[i + k];
  }

  // ---------------------------------------------------------------------
  // lstrip(c)
  // ---------------------------------------------------------------------

  /** Python's `s.lstrip(c)` for a single character `c`. */
  function LStrip(s: string, c: char): string
    decreases |s|
  {
    if |s| > 0 && s[0] == c then LStrip(s[1..], c) else s
  }

  /** `lstrip` removes a run of leading copies of `c` and nothing else, and
      what is left does not start with `c`. */
  lemma {:induction false} LStripSpec(s: string, c: char)
    ensures |LStrip(s, c)| <= |s| && LStrip(s, c) == s[|s| - |LStrip(s, c)|..]
    ensures forall k :: 0 <= k < |s| - |LStrip(s, c)| ==> s[k] == c
    ensures LStrip(s, c) == [] || LStrip(s, c)[0] != c
    decreases |s|
  {
    if |s| > 0 && s[0] == c {
      LStripSpec(s[1..], c);
      var r := LStrip(s[1..], c);
      assert LStrip(s, c) == r;
      assert s[1..][|s| - 1 - |r|..] == s[|s| - |r|..];
      forall k | 0 <= k < |s| - |r| ensures s[k] == c {
        if k > 0 { assert s[k] == s[1..][k - 1]; }
      }
    }
  }

  /** A text that does not start with `c` is left alone by `lstrip`. */
  lemma LStripKeeps(s: string, c: char)
    requires s == [] || s[0] != c
    ensures LStrip(s, c) == s
  {
  }

  // ---------------------------------------------------------------------
  // lower()
  // ---------------------------------------------------------------------

  predicate IsUpper(c: char) {
    'A' <= c <= 'Z'
  }

  function LowerChar(c: char): char {
    if IsUpper(c) then (c as int + 32) as char else c
  }

  /** `a` and `b` differ at most in the case of their letters. */
  predicate SameUpToCase(a: string, b: string) {
    |a| == |b| && forall i :: 0 <= i < |a| ==> LowerChar(a[i]) == LowerChar(b[i])
  }

  /** Python's `s.lower()` on ASCII text: the case-variant of `s` that has
      no upper-case letter. */
  function Lower(s: string): (r: string)
    ensures SameUpToCase(s, r)
    ensures forall i :: 0 <= i < |r| ==> !IsUpper(r[i])
  {
    seq(|s|, i requires 0 <= i < |s| => LowerChar(s[i]))
  }

  /** Lowering forgets exactly the case: texts that agree up to case lower
      to the same text. */
  lemma LowerIgnoresCase(a: string, b: string)
    requires SameUpToCase(a, b)
    ensures Lower(a) == Lower(b)
  {
    var la, lb := Lower(a), Lower(b);
    assert |la| == |lb|;
    forall i | 0 <= i < |la| ensures la[i] == lb[i] {
      assert LowerChar(la[i]) == la[i] && LowerChar(lb[i]) == lb[i];
      assert LowerChar(a[i]) == LowerChar(la[i]);
      assert LowerChar(b[i]) == LowerChar(lb[i]);
    }
  }

  // ---------------------------------------------------------------------
  // The substring test `w in s`
  // ---------------------------------------------------------------------

  predicate OccursAt(s: string, w: string, i: int) {
    0 <= i <= |s| - |w| && s[i..i + |w|] == w
  }

  lemma OccursShift(s: string, w: string)
    requires |s| > 0
    ensures forall j :: 0 <= j ==> (OccursAt(s[1..], w, j) <==> OccursAt(s, w, j + 1))
  {
    forall j | 0 <= j ensures OccursAt(s[1..], w, j) <==> OccursAt(s, w, j + 1) {
      if OccursAt(s[1..], w, j) {
        assert s[j + 1..j + 1 + |w|] == s[1..][j..j + |w|];
      }
      if OccursAt(s, w, j + 1) {
        assert s[1..][j..j + |w|] == s[j + 1..j + 1 + |w|];
      }
    }
  }

  /** Python's `w in s`, scanning `s` from the left. */
  function Contains(s: string, w: string): bool
    decreases |s|
  {
    if w <= s then true
    else if |s| == 0 then false
    else Contains(s[1..], w)
  }

  /** `w in s` holds exactly when some position of `s` starts an
      occurrence of `w`. */
  lemma {:induction false} ContainsSpec(s: string, w: string)
    ensures Contains(s, w) <==> exists i :: OccursAt(s, w, i)
    decreases |s|
  {
    if w <= s {
      assert OccursAt(s, w, 0);
    } else if |s| > 0 {
      ContainsSpec(s[1..], w);
      OccursShift(s, w);
      assert !OccursAt(s, w, 0);
      if Contains(s, w) {
        var j :| OccursAt(s[1..], w, j);
        assert OccursAt(s, w, j + 1);
      } else {
        forall i | OccursAt(s, w, i) ensures OccursAt(s[1..], w, i - 1) {
        }
      }
    }
  }

  // ---------------------------------------------------------------------
  // split(sep) and join
  // ---------------------------------------------------------------------

  /** Python's `sep.join(parts)`. */
  function Join(parts: seq<string>, sep: string): string {
    if |parts| == 0 then ""
    else if |parts| == 1 then parts[0]
    else parts[0] + sep + Join(parts[1..], sep)
  }

  /** Python's `s.split(sep)`: cuts at every occurrence of `sep`, scanning
      left to right; it always yields at least one piece. */
  function SplitOn(s: string, sep: string): (parts: seq<string>)
    requires sep != []
    ensures |parts| >= 1
    decreases |s|
  {
    if sep <= s then [""] + SplitOn(s[|sep|..], sep)
    else if s == [] then [""]
    else
      var rest := SplitOn(s[1..], sep);
      [[s[0]] + rest[0]] + rest[1..]
  }

  lemma JoinCons(first: string, rest: seq<string>, sep: string)
    requires |rest| >= 1
    ensures Join([first] + rest, sep) == first + sep + Join(rest, sep)
  {
    assert ([first] + rest)[1..] == rest;
  }

  /** A character put in front of the first part goes in front of the join. */
  lemma JoinHeadChar(c: char, parts: seq<string>, sep: string)
    requires |parts| >= 1
    ensures Join([[c] + parts[0]] + parts[1..], sep) == [c] + Join(parts, sep)
  {
    if |parts| > 1 {
      JoinCons([c] + parts[0], parts[1..], sep);
      JoinCons(parts[0], parts[1..], sep);
      assert parts == [parts[0]] + parts[1..];
    }
  }

  /** Joining the pieces of a split gives the text back. */
  lemma {:induction false} JoinSplit(s: string, sep: string)
    requires sep != []
    ensures Join(SplitOn(s, sep), sep) == s
    decreases |s|
  {
    if sep <= s {
      var tail := s[|sep|..];
      var p := SplitOn(tail, sep);
      JoinSplit(tail, sep);
      assert SplitOn(s, sep) == [""] + p;
      JoinCons("", p, sep);
      assert "" + sep + tail == s;
    } else if s != [] {
      var p := SplitOn(s[1..], sep);
      JoinSplit(s[1..], sep);
      assert SplitOn(s, sep) == [[s[0]] + p[0]] + p[1..];
      JoinHeadChar(s[0], p, sep);
      assert [s[0]] + s[1..] == s;
    }
  }

  /** A separator at the front produces an empty first piece. */
  lemma SplitAfterSep(t: string, sep: string)
    requires sep != []
    ensures SplitOn(sep + t, sep) == [""] + SplitOn(t, sep)
  {
    assert sep <= sep + t;
    assert (sep + t)[|sep|..] == t;
  }

  /** A text free of the separator's first character extends the first piece. */
  lemma {:induction false} SplitAfterPlain(x: string, t: string, sep: string)
    requires sep != [] && sep[0] !in x
    ensures SplitOn(x + t, sep) == [x + SplitOn(t, sep)[0]] + SplitOn(t, sep)[1..]
    decreases |x|
  {
    if x == [] {
      var r := SplitOn(t, sep);
      assert x + t == t;
      assert x + r[0] == r[0];
      assert r == [r[0]] + r[1..];
    } else {
      var s := x + t;
      var r := SplitOn(t, sep);
      assert s[0] == x[0] && s[0] != sep[0];
      assert !(sep <= s);
      assert s[1..] == x[1..] + t;
      SplitAfterPlain(x[1..], t, sep);
      var q := SplitOn(s[1..], sep);
      assert q == [x[1..] + r[0]] + r[1..];
      assert SplitOn(s, sep) == [[s[0]] + q[0]] + q[1..];
      assert [s[0]] + q[0] == x + r[0];
    }
  }

  /** Splitting a join gives the parts back, when no part contains the
      separator's first character. */
  lemma {:induction false} SplitJoin(parts: seq<string>, sep: string)
    requires sep != [] && |parts| >= 1
    requires forall k :: 0 <= k < |parts| ==> sep[0] !in parts[k]
    ensures SplitOn(Join(parts, sep), sep) == parts
    decreases |parts|
  {
    if |parts| == 1 {
      SplitAfterPlain(parts[0], "", sep);
      assert parts[0] + "" == parts[0];
    } else {
      var rest := Join(parts[1..], sep);
      SplitJoin(parts[1..], sep);
      assert parts[0] + sep + rest == parts[0] + (sep + rest);
      SplitAfterPlain(parts[0], sep + rest, sep);
      SplitAfterSep(rest, sep);
      var q := SplitOn(sep + rest, sep);
      assert q == [""] + parts[1..];
      assert q[0] == "" && q[1..] == parts[1..];
      assert parts[0] + "" == parts[0];
      assert parts == [parts[0]] + parts[1..];
    }
  }

  /** Splitting on a one-character separator leaves that character in no piece. */
  lemma {:induction false} SplitPiecesLackSep(s: string, c: char)
    ensures forall k :: 0 <= k < |SplitOn(s, [c])| ==> c !in SplitOn(s, [c])[k]
    decreases |s|
  {
    if [c] <= s {
      SplitPiecesLackSep(s[1..], c);
    } else if s == [] {
    } else {
      SplitPiecesLackSep(s[1..], c);
      var rest := SplitOn(s[1..], [c]);
      assert s[0] != c;
      assert c !in [s[0]] + rest[0];
    }
  }

  /** The first and last characters of a join of non-empty parts are those
      of the first and last part. */
  lemma {:induction false} JoinEdges(parts: seq<string>, sep: string)
    requires |parts| >= 1
    requires forall k :: 0 <= k < |parts| ==> parts[k] != []
    ensures |Join(parts, sep)| > 0
    ensures Join(parts, sep)[0] == parts[0][0]
    ensures Join(parts, sep)[|Join(parts, sep)| - 1] == parts[|parts| - 1][|parts[|parts| - 1]| - 1]
    decreases |parts|
  {
    if |parts| > 1 {
      JoinEdges(parts[1..], sep);
    }
  }

  // ---------------------------------------------------------------------
  // Decimal digits
  // ---------------------------------------------------------------------

  predicate IsDigit(c: char) {
    '0' <= c <= '9'
  }

  function Digit(d: int): (c: char)
    requires 0 <= d < 10
    ensures IsDigit(c) && c as int - '0' as int == d
  {
    ('0' as int + d) as char
  }

  /** `n` in decimal without leading zeros, as Python's `str(n)`. */
  function Decimal(n: nat): (ds: string)
    ensures |ds| >= 1 && forall k :: 0 <= k < |ds| ==> IsDigit(ds[k])
    ensures n > 0 ==> ds[0] != '0'
  {
    if n < 10 then [Digit(n)] else Decimal(n / 10) + [Digit(n % 10)]
  }

  /** The value of a string of decimal digits. */
  function DigitsValue(ds: string): nat
    requires forall k :: 0 <= k < |ds| ==> IsDigit(ds[k])
  {
    if ds == [] then 0
    else
      assert IsDigit(ds[|ds| - 1]);
      DigitsValue(ds[..|ds| - 1]) * 10 + (ds[|ds| - 1] as int - '0' as int)
  }

  /** Python's `int(ds)` restricted to canonical numerals: non-empty, all
      digits, and no leading zero unless the numeral is "0". */
  function ParseDecimal(ds: string): Option<nat> {
    if ds == [] || (|ds| > 1 && ds[0] == '0') then None
    else if forall k :: 0 <= k < |ds| ==> IsDigit(ds[k]) then Some(DigitsValue(ds))
    else None
  }

  /** Reading back a rendered number gives the number. */
  lemma {:induction false} DecimalRoundTrip(n: nat)
    ensures ParseDecimal(Decimal(n)) == Some(n)
  {
    DecimalValue(n);
  }

  lemma {:induction false} DecimalValue(n: nat)
    ensures DigitsValue(Decimal(n)) == n
  {
    if n >= 10 {
      DecimalValue(n / 10);
      var ds := Decimal(n / 10) + [Digit(n % 10)];
      assert ds[..|ds| - 1] == Decimal(n / 10);
    }
  }
}
