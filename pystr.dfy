/** The parts of Python's `str` and `os.path` behaviour that the game relies
    on, over `string` (= `seq<char>`). */
module PyStr {

  // ---------------------------------------------------------------------
  // Case and whitespace
  // ---------------------------------------------------------------------

  /** `str.lower()` on one character, for the ASCII letters. */
  function LowerChar(c: char): char {
    if 'A' <= c <= 'Z' then (c as int - 'A' as int + 'a' as int) as char else c
  }

  /** `str.lower()`, character by character. */
  function Lower(s: string): (r: string)
    ensures |r| == |s|
    ensures forall i :: 0 <= i < |s| ==> r[i] == LowerChar(s[i])
  {
    seq(|s|, i requires 0 <= i < |s| => LowerChar(s[i]))
  }

  /** A string `str.lower()` leaves as it is. */
  predicate IsLower(s: string) {
    forall i :: 0 <= i < |s| ==> !('A' <= s[i] <= 'Z')
  }

  lemma LowerIsLower(s: string)
    ensures IsLower(Lower(s))
    ensures Lower(Lower(s)) == Lower(s)
  {
  }

  /** `c in s`, one character at a time. */
  predicate Occurs(c: char, s: string)
    decreases |s|
  {
    |s| > 0 && (s[0] == c || Occurs(c, s[1..]))
  }

  /** The characters `str.isspace()` accepts: Unicode white space together
      with the ASCII separators U+001C..U+001F. */
  function IsSpace(c: char): (space: bool)
    ensures c == ' ' || c == '\t' || c == '\n' ==> space
  {
    var ws := " \t\n\U{0B}\U{0C}\r\U{1C}\U{1D}\U{1E}\U{1F}\U{85}\U{A0}\U{1680}"
            + "\U{2000}\U{2001}\U{2002}\U{2003}\U{2004}\U{2005}\U{2006}\U{2007}\U{2008}\U{2009}\U{200A}"
            + "\U{2028}\U{2029}\U{202F}\U{205F}\U{3000}";
    assert ws[0] == ' ' && ws[1..][0] == '\t' && ws[1..][1..][0] == '\n';
    assert Occurs('\n', ws[1..][1..]) && Occurs('\n', ws[1..]) && Occurs('\t', ws[1..]);
    Occurs(c, ws)
  }

  /** A string that neither starts nor ends with white space. */
  predicate IsStripped(s: string) {
    s == "" || (!IsSpace(s[0]) && !IsSpace(s[|s| - 1]))
  }

  /** `str.lstrip()`: drops leading white space. */
  function LStrip(s: string): (r: string)
    ensures |r| <= |s|
    ensures r == "" || !IsSpace(r[0])
  {
    if |s| > 0 && IsSpace(s[0]) then LStrip(s[1..]) else s
  }

  /** Left stripping only removes characters. */
  lemma {:induction false} LStripKeeps(s: string)
    ensures forall c :: c in LStrip(s) ==> c in s
    decreases |s|
  {
    if |s| > 0 && IsSpace(s[0]) {
      LStripKeeps(s[1..]);
      assert forall c :: c in s[1..] ==> c in s;
    }
  }

  /** `str.rstrip()`: drops trailing white space. */
  function RStrip(s: string): (r: string)
    ensures |r| <= |s|
    ensures r == "" || !IsSpace(r[|r| - 1])
  {
    if |s| > 0 && IsSpace(s[|s| - 1]) then RStrip(s[..|s| - 1]) else s
  }

  /** Right stripping keeps a prefix of its argument. */
  lemma {:induction false} RStripPrefix(s: string)
    ensures RStrip(s) <= s
    ensures forall c :: c in RStrip(s) ==> c in s
    decreases |s|
  {
    if |s| > 0 && IsSpace(s[|s| - 1]) {
      var t := s[..|s| - 1];
      RStripPrefix(t);
      assert RStrip(s) == RStrip(t);
      assert forall i :: 0 <= i < |RStrip(t)| ==> RStrip(t)[i] == s[i];
      assert forall c :: c in t ==> c in s;
    }
  }

  /** `str.strip()`: drops white space at both ends. */
  function Strip(s: string): (r: string)
    ensures IsStripped(r)
    ensures IsStripped(s) ==> r == s
    ensures forall c :: c in r ==> c in s
  {
    var l := LStrip(s);
    var r := RStrip(l);
    LStripKeeps(s);
    RStripPrefix(l);
    assert r == "" || r[0] == l[0];
    r
  }

  /** Left stripping removes a prefix made only of white space. */
  lemma {:induction false} LStripOnlySpace(s: string)
    ensures LStrip(s) == s[|s| - |LStrip(s)|..]
    ensures forall i :: 0 <= i < |s| - |LStrip(s)| ==> IsSpace(s[i])
    decreases |s|
  {
    if |s| > 0 && IsSpace(s[0]) {
      LStripOnlySpace(s[1..]);
      assert s[1..][|s| - 1 - |LStrip(s)|..] == s[|s| - |LStrip(s)|..];
      forall i | 0 <= i < |s| - |LStrip(s)| ensures IsSpace(s[i]) {
        if i > 0 { assert s[1..][i - 1] == s[i]; }
      }
    }
  }

  /** Right stripping removes a suffix made only of white space. */
  lemma {:induction false} RStripOnlySpace(s: string)
    ensures forall i :: |RStrip(s)| <= i < |s| ==> IsSpace(s[i])
    decreases |s|
  {
    if |s| > 0 && IsSpace(s[|s| - 1]) {
      var t := s[..|s| - 1];
      RStripOnlySpace(t);
      forall i | |RStrip(s)| <= i < |s| ensures IsSpace(s[i]) {
        if i < |s| - 1 { assert t[i] == s[i]; }
      }
    }
  }

  /** Stripping keeps a contiguous middle of `s` and removes only white
      space on either side of it. */
  lemma StripOnlySpace(s: string)
    ensures exists i, j ::
      && 0 <= i <= j <= |s| && Strip(s) == s[i..j]
      && (forall k :: 0 <= k < i ==> IsSpace(s[k]))
      && (forall k :: j <= k < |s| ==> IsSpace(s[k]))
  {
    var l := LStrip(s);
    LStripOnlySpace(s);
    RStripPrefix(l);
    RStripOnlySpace(l);
    var i := |s| - |l|;
    var r := RStrip(l);
    var j := i + |r|;
    assert Strip(s) == r;
    assert l == s[i..];
    assert r == l[..|r|];
    assert r == s[i..j];
    forall k | j <= k < |s| ensures IsSpace(s[k]) {
      assert s[k] == l[k - i];
    }
  }

  /** Stripping ignores one extra leading space. */
  lemma StripSpacePrefix(x: string)
    ensures Strip(" " + x) == Strip(x)
  {
    assert IsSpace(' ');
    assert (" " + x)[1..] == x;
  }

  // ---------------------------------------------------------------------
  // Splitting and joining
  // ---------------------------------------------------------------------

  /** `sep.join(xs)`. */
  function Join(xs: seq<string>, sep: string): (r: string)
    ensures xs == [] ==> r == ""
    ensures |xs| > 0 ==> |xs[0]| <= |r|
  {
    if |xs| == 0 then ""
    else if |xs| == 1 then xs[0]
    else xs[0] + sep + Join(xs[1..], sep)
  }

  /** `s.split(sep)` for a one-character separator: the pieces between
      occurrences of `sep`; always at least one piece. Joining the pieces
      back gives `s`. */
  function Split(s: string, sep: char): (r: seq<string>)
    ensures |r| >= 1
    ensures forall i :: 0 <= i < |r| ==> sep !in r[i]
    ensures Join(r, [sep]) == s
    decreases |s|
  {
    if |s| == 0 then [""]
    else
      var rest := Split(s[1..], sep);
      if s[0] == sep then
        assert ([""] + rest)[1..] == rest;
        [""] + rest
      else
        var r := [[s[0]] + rest[0]] + rest[1..];
        assert r[1..] == rest[1..];
        assert s == [s[0]] + s[1..];
        r
  }

  lemma {:induction false} SplitNoSep(a: string, sep: char)
    requires sep !in a
    ensures Split(a, sep) == [a]
    decreases |a|
  {
    if |a| > 0 {
      SplitNoSep(a[1..], sep);
      assert [a[0]] + a[1..] == a;
    }
  }

  /** A piece that holds no separator comes out of the split whole. */
  lemma {:induction false} SplitConcat(a: string, sep: char, b: string)
    requires sep !in a
    ensures Split(a + [sep] + b, sep) == [a] + Split(b, sep)
    decreases |a|
  {
    if |a| == 0 {
      assert a + [sep] + b == [sep] + b;
      assert ([sep] + b)[1..] == b;
    } else {
      var s := a + [sep] + b;
      assert s[0] == a[0];
      assert s[1..] == a[1..] + [sep] + b;
      SplitConcat(a[1..], sep, b);
      assert [a[0]] + a[1..] == a;
    }
  }

  /** Splitting is the inverse of joining pieces that hold no separator. */
  lemma {:induction false} SplitOfJoin(xs: seq<string>, sep: char)
    requires |xs| >= 1
    requires forall i :: 0 <= i < |xs| ==> sep !in xs[i]
    ensures Split(Join(xs, [sep]), sep) == xs
    decreases |xs|
  {
    if |xs| == 1 {
      SplitNoSep(xs[0], sep);
    } else {
      SplitOfJoin(xs[1..], sep);
      SplitConcat(xs[0], sep, Join(xs[1..], [sep]));
      assert [xs[0]] + xs[1..] == xs;
    }
  }

  /** `s.split(sep)[0]`: the text before the first `sep`, or all of `s`. */
  lemma SplitFirstPiece(s: string, sep: char)
    ensures Split(s, sep)[0] <= s
    ensures sep !in Split(s, sep)[0]
    ensures |Split(s, sep)[0]| < |s| ==> s[|Split(s, sep)[0]|] == sep
  {
    var r := Split(s, sep);
    if |r| > 1 {
      assert s == r[0] + [sep] + Join(r[1..], [sep]);
    }
  }

  /** `[s.strip() for s in pieces if s.strip()]`. */
  function Cleaned(pieces: seq<string>): (r: seq<string>)
    ensures |r| <= |pieces|
    ensures forall i :: 0 <= i < |r| ==> r[i] != "" && IsStripped(r[i])
  {
    if pieces == [] then []
    else
      var t := Strip(pieces[0]);
      (if t != "" then [t] else []) + Cleaned(pieces[1..])
  }

  /** Cleaning works piece by piece, so it keeps the order of the pieces. */
  lemma {:induction false} CleanedConcat(a: seq<string>, b: seq<string>)
    ensures Cleaned(a + b) == Cleaned(a) + Cleaned(b)
    decreases |a|
  {
    if a != [] {
      assert (a + b)[0] == a[0];
      assert (a + b)[1..] == a[1..] + b;
      CleanedConcat(a[1..], b);
    } else {
      assert a + b == b;
    }
  }

  /** A piece survives cleaning, stripped, exactly when it is not blank. */
  lemma {:induction false} CleanedHas(pieces: seq<string>, i: nat)
    requires i < |pieces| && Strip(pieces[i]) != ""
    ensures Strip(pieces[i]) in Cleaned(pieces)
    decreases i
  {
    if i > 0 {
      CleanedHas(pieces[1..], i - 1);
    }
  }

  /** Every element of a cleaned list is a non-blank piece, stripped. */
  lemma {:induction false} CleanedFrom(pieces: seq<string>, x: string)
    requires x in Cleaned(pieces)
    ensures exists i :: 0 <= i < |pieces| && Strip(pieces[i]) == x
    decreases |pieces|
  {
    var t := Strip(pieces[0]);
    if t != "" && x == t {
      assert Strip(pieces[0]) == x;
    } else {
      assert x in Cleaned(pieces[1..]);
      CleanedFrom(pieces[1..], x);
      var i :| 0 <= i < |pieces[1..]| && Strip(pieces[1..][i]) == x;
      assert Strip(pieces[i + 1]) == x;
    }
  }

  /** `[s.strip() for s in raw.split(",") if s.strip()]`: the non-blank
      comma-separated pieces of `raw`, stripped, in order. */
  function CommaList(raw: string): (r: seq<string>)
    ensures forall i :: 0 <= i < |r| ==> r[i] != "" && IsStripped(r[i]) && ',' !in r[i]
  {
    var pieces := Split(raw, ',');
    var r := Cleaned(pieces);
    CleanedCommaFree(pieces);
    r
  }

  lemma {:induction false} CleanedCommaFree(pieces: seq<string>)
    requires forall i :: 0 <= i < |pieces| ==> ',' !in pieces[i]
    ensures forall i :: 0 <= i < |Cleaned(pieces)| ==> ',' !in Cleaned(pieces)[i]
    decreases |pieces|
  {
    if pieces != [] {
      CleanedCommaFree(pieces[1..]);
    }
  }

  /** `", ".join(xs)` parses back to `xs` when every element is non-blank,
      stripped and free of commas. */
  lemma CommaListOfJoin(xs: seq<string>)
    requires forall i :: 0 <= i < |xs| ==> xs[i] != "" && IsStripped(xs[i]) && ',' !in xs[i]
    ensures CommaList(Join(xs, ", ")) == xs
  {
    CleanedSplitJoin("", xs);
    assert "" + Join(xs, ", ") == Join(xs, ", ");
  }

  lemma {:induction false} CleanedSplitJoin(pre: string, xs: seq<string>)
    requires pre == "" || pre == " "
    requires forall i :: 0 <= i < |xs| ==> xs[i] != "" && IsStripped(xs[i]) && ',' !in xs[i]
    ensures Cleaned(Split(pre + Join(xs, ", "), ',')) == xs
    decreases |xs|
  {
    if |xs| == 0 {
      BlankPrefixCleaned(pre);
    } else if |xs| == 1 {
      StripHead(pre, xs[0]);
      SplitNoSep(pre + xs[0], ',');
    } else {
      CleanedSplitJoin(" ", xs[1..]);
      CleanedSplitJoinCons(pre, xs);
    }
  }

  /** The step of the induction: the first answer, then the rest. */
  lemma CleanedSplitJoinCons(pre: string, xs: seq<string>)
    requires pre == "" || pre == " "
    requires |xs| >= 2 && IsStripped(xs[0]) && xs[0] != "" && ',' !in xs[0]
    requires Cleaned(Split(" " + Join(xs[1..], ", "), ',')) == xs[1..]
    ensures Cleaned(Split(pre + Join(xs, ", "), ',')) == xs
  {
    var rest := Split(" " + Join(xs[1..], ", "), ',');
    SplitJoinHead(pre, xs);
    CleanedHead(pre, xs[0], rest);
    assert [xs[0]] + xs[1..] == xs;
  }

  /** Splitting the joined list at commas gives the first answer, after
      the prefix, and then the pieces of the rest. */
  lemma SplitJoinHead(pre: string, xs: seq<string>)
    requires pre == "" || pre == " "
    requires |xs| >= 2 && IsStripped(xs[0]) && ',' !in xs[0]
    ensures Split(pre + Join(xs, ", "), ',') == [pre + xs[0]] + Split(" " + Join(xs[1..], ", "), ',')
  {
    StripHead(pre, xs[0]);
    JoinCons(pre, xs);
    SplitJoinStep(pre + xs[0], Join(xs[1..], ", "));
  }

  /** Cleaning keeps a clean first answer behind an optional blank. */
  lemma CleanedHead(pre: string, x: string, rest: seq<string>)
    requires pre == "" || pre == " "
    requires IsStripped(x) && x != "" && ',' !in x
    ensures Cleaned([pre + x] + rest) == [x] + Cleaned(rest)
  {
    StripHead(pre, x);
    CleanedCons(pre + x, rest);
  }

  lemma JoinCons(pre: string, xs: seq<string>)
    requires |xs| >= 2
    ensures pre + Join(xs, ", ") == (pre + xs[0]) + ", " + Join(xs[1..], ", ")
  {
  }

  lemma SplitJoinStep(head: string, tail: string)
    requires ',' !in head
    ensures Split(head + ", " + tail, ',') == [head] + Split(" " + tail, ',')
  {
    assert head + ", " + tail == head + [','] + (" " + tail);
    SplitConcat(head, ',', " " + tail);
  }

  lemma BlankPrefixCleaned(pre: string)
    requires pre == "" || pre == " "
    ensures Cleaned(Split(pre, ',')) == []
  {
    SplitNoSep(pre, ',');
    if pre == " " { StripSpacePrefix(""); }
  }

  lemma StripHead(pre: string, x: string)
    requires pre == "" || pre == " "
    requires IsStripped(x) && ',' !in x
    ensures Strip(pre + x) == x && ',' !in pre + x
  {
    if pre == " " { StripSpacePrefix(x); } else { assert pre + x == x; }
  }

  lemma CleanedCons(p: string, ps: seq<string>)
    requires Strip(p) != ""
    ensures Cleaned([p] + ps) == [Strip(p)] + Cleaned(ps)
  {
    assert ([p] + ps)[1..] == ps;
  }

  /** Every non-blank comma-separated piece appears, stripped, in the list. */
  lemma CommaListHas(raw: string, i: nat)
    requires i < |Split(raw, ',')| && Strip(Split(raw, ',')[i]) != ""
    ensures Strip(Split(raw, ',')[i]) in CommaList(raw)
  {
    CleanedHas(Split(raw, ','), i);
  }

  /** And every element of the list is such a piece. */
  lemma CommaListFrom(raw: string, x: string)
    requires x in CommaList(raw)
    ensures exists i :: 0 <= i < |Split(raw, ',')| && Strip(Split(raw, ',')[i]) == x
  {
    CleanedFrom(Split(raw, ','), x);
  }

  // ---------------------------------------------------------------------
  // Prefixes, suffixes and paths
  // ---------------------------------------------------------------------

  /** `s.endswith(suffix)`. (`s.startswith(p)` is Dafny's prefix test `p <= s`.) */
  function EndsWith(s: string, suffix: string): (r: bool)
    ensures r <==> exists p :: p + suffix == s
  {
    assert |suffix| <= |s| ==> s[..|s| - |suffix|] + s[|s| - |suffix|..] == s;
    assert forall p :: p + suffix == s ==> (p + suffix)[|p|..] == suffix;
    |suffix| <= |s| && s[|s| - |suffix|..] == suffix
  }

  /** `os.path.basename(p)`: the text after the last '/'. */
  function Basename(p: string): (r: string)
    ensures '/' !in r
    ensures |r| <= |p| && r == p[|p| - |r|..]
    ensures |r| < |p| ==> p[|p| - |r| - 1] == '/'
  {
    if p == [] || p[|p| - 1] == '/' then []
    else
      var r := Basename(p[..|p| - 1]) + [p[|p| - 1]];
      assert p == p[..|p| - 1] + [p[|p| - 1]];
      r
  }

  /** `s.rfind(c)`: the last index of `c`, or -1 when there is none. */
  function RFind(s: string, c: char): (i: int)
    ensures -1 <= i < |s|
    ensures i >= 0 ==> s[i] == c
    ensures forall j :: i < j < |s| ==> s[j] != c
  {
    if s == [] then -1
    else if s[|s| - 1] == c then |s| - 1
    else RFind(s[..|s| - 1], c)
  }

  /** `os.path.splitext(b)[0]` for a base name `b`: drops the text from the
      last '.' on, unless every character before that dot is a dot (so
      ".json" and "..json" keep their name). */
  function SplitextRoot(b: string): (r: string)
    ensures r <= b
    ensures '.' !in b ==> r == b
    ensures |r| < |b| ==>
      && b[|r|] == '.' && '.' !in b[|r| + 1..]
      && exists j :: 0 <= j < |r| && r[j] != '.'
    ensures (exists j, d :: 0 <= j < d < |b| && b[d] == '.' && b[j] != '.') ==> |r| < |b|
  {
    var d := RFind(b, '.');
    if d >= 0 && exists j :: 0 <= j < d && b[j] != '.' then b[..d] else b
  }
}
