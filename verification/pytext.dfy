/**
 * The few Python string operations the servers rely on: substring test
 * (`pat in text`), `str.find`, `str.split` with an explicit separator and
 * `int()` applied to a string.
 */
module PyText {
  import opened Common

  /** The characters of `pat` from index `k` on match those of `text` from `i + k` on. */
  predicate MatchesFrom(text: string, pat: string, i: nat, k: nat)
    requires i + |pat| <= |text|
    decreases |pat| - k
  {
    k >= |pat| || (text[i + k] == pat[k] && MatchesFrom(text, pat, i, k + 1))
  }

  /** `pat` occurs in `text` starting at index `i`, compared character by character. */
  predicate OccursAt(text: string, pat: string, i: int)
  {
    0 <= i && i + |pat| <= |text| && MatchesFrom(text, pat, i, 0)
  }

  lemma {:induction false} MatchesFromSlice(text: string, pat: string, i: nat, k: nat)
    requires i + |pat| <= |text| && k <= |pat|
    ensures MatchesFrom(text, pat, i, k) <==> text[i + k..i + |pat|] == pat[k..]
    decreases |pat| - k
  {
    if k < |pat| {
      MatchesFromSlice(text, pat, i, k + 1);
      assert text[i + k..i + |pat|] == [text[i + k]] + text[i + k + 1..i + |pat|];
      assert pat[k..] == [pat[k]] + pat[k + 1..];
    }
  }

  /** An occurrence is a slice of `text` equal to `pat`. */
  lemma OccursAtMeaning(text: string, pat: string, i: int)
    ensures OccursAt(text, pat, i) <==> 0 <= i && i + |pat| <= |text| && text[i..i + |pat|] == pat
  {
    if 0 <= i && i + |pat| <= |text| {
      MatchesFromSlice(text, pat, i, 0);
    }
  }

  /** An occurrence inside the slice `text[a..b]` is an occurrence in `text`, ending by `b`. */
  lemma OccursInSlice(text: string, pat: string, a: nat, b: nat, j: int)
    requires a <= b <= |text| && OccursAt(text[a..b], pat, j)
    ensures OccursAt(text, pat, a + j) && a + j + |pat| <= b
  {
    OccursAtMeaning(text[a..b], pat, j);
    OccursAtMeaning(text, pat, a + j);
    var piece := text[a..b];
    forall k | 0 <= k < |pat|
      ensures text[a + j + k] == pat[k]
    {
      assert piece[j..j + |pat|][k] == piece[j + k] == text[a + j + k];
    }
    assert text[a + j..a + j + |pat|] == pat;
  }

  /** An occurrence in `a + b` that starts inside `b` is an occurrence in `b`. */
  lemma OccursInRight(a: string, b: string, pat: string, i: int)
    requires |a| <= i && OccursAt(a + b, pat, i)
    ensures OccursAt(b, pat, i - |a|)
  {
    OccursAtMeaning(a + b, pat, i);
    OccursAtMeaning(b, pat, i - |a|);
    assert (a + b)[i..i + |pat|] == b[i - |a|..i - |a| + |pat|];
  }

  /** A suffix of a suffix of `text` is a suffix of `text`. */
  lemma SuffixOfSuffix(text: string, n: nat, m: nat)
    requires n <= |text| && m <= |text| - n
    ensures text[n..][|text| - n - m..] == text[|text| - m..]
  {
  }

  /** The first index at or after `from` where `pat` occurs. */
  function FindFrom(text: string, pat: string, from: nat): (r: Option<nat>)
    ensures r.Some? ==> from <= r.value && r.value + |pat| <= |text|
    decreases |text| - from
  {
    if |text| < from + |pat| then None
    else if OccursAt(text, pat, from) then Some(from)
    else FindFrom(text, pat, from + 1)
  }

  /** The index `FindFrom` returns is an occurrence, with none before it; `None` means none at all. */
  lemma {:induction false} FindFromMeaning(text: string, pat: string, from: nat)
    ensures var r := FindFrom(text, pat, from);
      && (r.Some? ==> OccursAt(text, pat, r.value))
      && (r.Some? ==> forall j :: from <= j < r.value ==> !OccursAt(text, pat, j))
      && (r.None? ==> forall j :: from <= j ==> !OccursAt(text, pat, j))
    decreases |text| - from
  {
    if from + |pat| <= |text| && !OccursAt(text, pat, from) {
      FindFromMeaning(text, pat, from + 1);
    }
  }

  /** `text.find(pat)`: the first index where `pat` occurs, `None` for Python's -1. */
  function Find(text: string, pat: string): (r: Option<nat>)
    ensures r.Some? ==> OccursAt(text, pat, r.value)
    ensures r.Some? ==> forall j :: 0 <= j < r.value ==> !OccursAt(text, pat, j)
    ensures r.None? ==> forall j :: !OccursAt(text, pat, j)
  {
    FindFromMeaning(text, pat, 0);
    FindFrom(text, pat, 0)
  }

  /** Python's `pat in text`. */
  function Contains(text: string, pat: string): (b: bool)
    ensures b <==> exists i :: OccursAt(text, pat, i)
  {
    Find(text, pat).Some?
  }

  /**
   * The pieces of `text[from..]` split at the occurrences of `sep` found
   * left to right, each search starting where the previous separator ended.
   */
  function SplitFrom(text: string, sep: string, from: nat): (parts: seq<string>)
    requires sep != [] && from <= |text|
    ensures |parts| >= 1
    ensures forall k :: 0 <= k < |parts| ==> !Contains(parts[k], sep)
    decreases |text| - from
  {
    FindFromMeaning(text, sep, from);
    match FindFrom(text, sep, from)
    case None =>
      assert !Contains(text[from..], sep) by {
        assert text[from..] == text[from..|text|];
        forall j | OccursAt(text[from..|text|], sep, j) ensures false {
          OccursInSlice(text, sep, from, |text|, j);
        }
      }
      [text[from..]]
    case Some(i) =>
      var head := text[from..i];
      assert !Contains(head, sep) by {
        forall j | OccursAt(head, sep, j) ensures false {
          OccursInSlice(text, sep, from, i, j);
        }
      }
      [head] + SplitFrom(text, sep, i + |sep|)
  }

  /** `text.split(sep)` for a non-empty separator. */
  function Split(text: string, sep: string): (parts: seq<string>)
    requires sep != []
    ensures |parts| >= 1
    ensures forall k :: 0 <= k < |parts| ==> !Contains(parts[k], sep)
  {
    SplitFrom(text, sep, 0)
  }

  /** `sep.join(parts)`. */
  function Join(sep: string, parts: seq<string>): string
  {
    if |parts| == 0 then ""
    else if |parts| == 1 then parts[0]
    else parts[0] + sep + Join(sep, parts[1..])
  }

  /** Joining the pieces of `text[from..]` with the separator gives back `text[from..]`. */
  lemma {:induction false} JoinSplitFrom(text: string, sep: string, from: nat)
    requires sep != [] && from <= |text|
    ensures Join(sep, SplitFrom(text, sep, from)) == text[from..]
    decreases |text| - from
  {
    match FindFrom(text, sep, from)
    case None =>
    case Some(i) =>
      var parts := SplitFrom(text, sep, from);
      var tail := SplitFrom(text, sep, i + |sep|);
      JoinSplitFrom(text, sep, i + |sep|);
      FindFromMeaning(text, sep, from);
      assert parts == [text[from..i]] + tail;
      assert parts[1..] == tail;
      OccursAtMeaning(text, sep, i);
      assert text[from..] == text[from..i] + text[i..i + |sep|] + text[i + |sep|..];
  }

  /** Joining the pieces of a split with the same separator gives back the text. */
  lemma JoinSplit(text: string, sep: string)
    requires sep != []
    ensures Join(sep, Split(text, sep)) == text
  {
    JoinSplitFrom(text, sep, 0);
    assert text[0..] == text;
  }

  /** Python's `parts[-1]`. */
  function Last(parts: seq<string>): string
    requires |parts| >= 1
  {
    parts[|parts| - 1]
  }

  /** `text.split(sep)[-1]`: the last piece of the split. */
  function SplitLast(text: string, sep: string): string
    requires sep != []
  {
    Last(Split(text, sep))
  }

  /**
   * Where the last piece of the split of `text[from..]` begins: right after
   * the last separator at or after `from`, or at `from` when there is none.
   */
  function LastPieceStart(text: string, sep: string, from: nat): (start: nat)
    requires sep != [] && from <= |text|
    ensures from <= start <= |text|
    ensures FindFrom(text, sep, from).None? ==> start == from
    decreases |text| - from
  {
    match FindFrom(text, sep, from)
    case None => from
    case Some(i) => LastPieceStart(text, sep, i + |sep|)
  }

  /** When a separator occurs at or after `from`, one ends right where the last piece begins. */
  lemma {:induction false} LastPieceFollowsSeparator(text: string, sep: string, from: nat)
    requires sep != [] && from <= |text| && FindFrom(text, sep, from).Some?
    ensures |sep| <= LastPieceStart(text, sep, from)
    ensures OccursAt(text, sep, LastPieceStart(text, sep, from) - |sep|)
    decreases |text| - from
  {
    var i := FindFrom(text, sep, from).value;
    FindFromMeaning(text, sep, from);
    if FindFrom(text, sep, i + |sep|).Some? {
      LastPieceFollowsSeparator(text, sep, i + |sep|);
    }
  }

  /** Past the first separator found, the last piece and where it starts are those of the rest. */
  lemma SplitFromNext(text: string, sep: string, from: nat, i: nat)
    requires sep != [] && from <= |text| && FindFrom(text, sep, from) == Some(i)
    ensures i + |sep| <= |text|
    ensures Last(SplitFrom(text, sep, from)) == Last(SplitFrom(text, sep, i + |sep|))
    ensures LastPieceStart(text, sep, from) == LastPieceStart(text, sep, i + |sep|)
  {
    var parts := SplitFrom(text, sep, from);
    var tail := SplitFrom(text, sep, i + |sep|);
    assert parts == [text[from..i]] + tail;
  }

  /** With no separator left, `text[from..]` is the last piece, and it starts at `from`. */
  lemma SplitFromNone(text: string, sep: string, from: nat)
    requires sep != [] && from <= |text| && FindFrom(text, sep, from).None?
    ensures SplitFrom(text, sep, from) == [text[from..]]
    ensures LastPieceStart(text, sep, from) == from
  {
  }

  /** The last piece of the split of `text[from..]` is the text from `LastPieceStart` on. */
  lemma {:induction false} SplitFromLast(text: string, sep: string, from: nat)
    requires sep != [] && from <= |text|
    ensures Last(SplitFrom(text, sep, from)) == text[LastPieceStart(text, sep, from)..]
    decreases |text| - from
  {
    match FindFrom(text, sep, from)
    case None => SplitFromNone(text, sep, from);
    case Some(i) =>
      SplitFromLast(text, sep, i + |sep|);
      SplitFromLastStep(text, sep, from, i);
  }

  /** One step of `SplitFromLast`: past the first separator, the claim carries back to `from`. */
  lemma SplitFromLastStep(text: string, sep: string, from: nat, i: nat)
    requires sep != [] && from <= |text| && FindFrom(text, sep, from) == Some(i)
    requires i + |sep| <= |text|
    requires Last(SplitFrom(text, sep, i + |sep|)) == text[LastPieceStart(text, sep, i + |sep|)..]
    ensures Last(SplitFrom(text, sep, from)) == text[LastPieceStart(text, sep, from)..]
  {
    SplitFromNext(text, sep, from, i);
  }

  /**
   * The last piece is a suffix of the text that holds no separator, and
   * when the text holds the separator at all, one ends right where the
   * last piece begins.
   */
  lemma SplitLastAfterSeparator(text: string, sep: string)
    requires sep != []
    ensures var r := SplitLast(text, sep);
      && !Contains(r, sep)
      && |r| <= |text| && r == text[|text| - |r|..]
      && (Contains(text, sep) ==> OccursAt(text, sep, |text| - |r| - |sep|))
      && (!Contains(text, sep) ==> r == text)
  {
    SplitFromLast(text, sep, 0);
    if Contains(text, sep) {
      LastPieceFollowsSeparator(text, sep, 0);
    }
    var start := LastPieceStart(text, sep, 0);
    assert |SplitLast(text, sep)| == |text| - start;
    assert text[0..] == text;
  }

  /** The characters `str.strip()` and `int()` skip around a number (ASCII whitespace). */
  predicate IsSpace(c: char)
  {
    c == ' ' || c == '\t' || c == '\n' || c == '\r' || c == '\U{B}' || c == '\U{C}'
  }

  predicate IsDigit(c: char) { '0' <= c <= '9' }

  predicate AllDigits(s: string) { forall k :: 0 <= k < |s| ==> IsDigit(s[k]) }

  /** Drops leading whitespace. */
  function StripLeft(s: string): (r: string)
    ensures |r| <= |s| && r == s[|s| - |r|..]
    ensures forall k :: 0 <= k < |s| - |r| ==> IsSpace(s[k])
    ensures r != [] ==> !IsSpace(r[0])
  {
    if s != [] && IsSpace(s[0]) then
      var r := StripLeft(s[1..]);
      SuffixOfSuffix(s, 1, |r|);
      r
    else s
  }

  /** Drops trailing whitespace. */
  function StripRight(s: string): (r: string)
    ensures |r| <= |s| && r == s[..|r|]
    ensures forall k :: |r| <= k < |s| ==> IsSpace(s[k])
    ensures r != [] ==> !IsSpace(r[|r| - 1])
  {
    if s != [] && IsSpace(s[|s| - 1]) then StripRight(s[..|s| - 1]) else s
  }

  function Strip(s: string): string
  {
    StripRight(StripLeft(s))
  }

  function DigitValue(c: char): nat
    requires IsDigit(c)
  {
    (c as int) - ('0' as int)
  }

  function DigitChar(d: nat): (c: char)
    requires d < 10
    ensures IsDigit(c) && DigitValue(c) == d
  {
    ((d + '0' as int) as char)
  }

  /** The value of a decimal digit string, most significant digit first. */
  function DigitsValue(s: string): nat
    requires AllDigits(s)
  {
    if s == [] then 0 else DigitsValue(s[..|s| - 1]) * 10 + DigitValue(s[|s| - 1])
  }

  /**
   * `int` on text whose surrounding whitespace is already gone: an optional
   * sign and at least one decimal digit, nothing else.
   */
  function ParseStripped(t: string): (r: Option<int>)
    ensures r.Some? <==>
      && t != []
      && (AllDigits(t) || ((t[0] == '-' || t[0] == '+') && |t| > 1 && AllDigits(t[1..])))
    ensures t != [] && AllDigits(t) ==> r == Some(DigitsValue(t))
    ensures |t| > 1 && t[0] == '-' && AllDigits(t[1..]) ==> r == Some(-(DigitsValue(t[1..]) as int))
    ensures |t| > 1 && t[0] == '+' && AllDigits(t[1..]) ==> r == Some(DigitsValue(t[1..]) as int)
    ensures r.Some? && r.value < 0 ==> t[0] == '-'
  {
    if t == [] then None
    else
      var body := if t[0] == '-' || t[0] == '+' then t[1..] else t;
      if body == [] || !AllDigits(body) then None
      else
        var magnitude: int := DigitsValue(body);
        Some(if t[0] == '-' then -magnitude else magnitude)
  }

  /**
   * `int(s)` on a string: optional surrounding whitespace, an optional sign
   * and at least one decimal digit. `None` is the `ValueError` Python raises.
   */
  function ParseInt(s: string): (r: Option<int>)
    ensures r.Some? <==>
      && Strip(s) != []
      && (AllDigits(Strip(s)) || ((Strip(s)[0] == '-' || Strip(s)[0] == '+') && |Strip(s)| > 1 && AllDigits(Strip(s)[1..])))
    ensures Strip(s) == [] ==> r == None
    ensures Strip(s) != [] && AllDigits(Strip(s)) ==> r == Some(DigitsValue(Strip(s)))
    ensures |Strip(s)| > 1 && Strip(s)[0] == '-' && AllDigits(Strip(s)[1..]) ==>
      r == Some(-(DigitsValue(Strip(s)[1..]) as int))
    ensures |Strip(s)| > 1 && Strip(s)[0] == '+' && AllDigits(Strip(s)[1..]) ==>
      r == Some(DigitsValue(Strip(s)[1..]) as int)
    ensures Strip(s) != [] && !IsDigit(Strip(s)[0]) && Strip(s)[0] != '-' && Strip(s)[0] != '+' ==> r == None
    ensures r.Some? && r.value < 0 ==> Strip(s)[0] == '-'
  {
    ParseStripped(Strip(s))
  }

  /** `str(n)` for a natural number. */
  function ShowNat(n: nat): (s: string)
    ensures s != [] && AllDigits(s)
  {
    if n < 10 then [DigitChar(n)] else ShowNat(n / 10) + [DigitChar(n % 10)]
  }

  /** `str(n)`. */
  function Show(n: int): string
  {
    if n < 0 then "-" + ShowNat(-n) else ShowNat(n)
  }

  lemma {:induction false} DigitsValueShowNat(n: nat)
    ensures DigitsValue(ShowNat(n)) == n
  {
    if n >= 10 {
      DigitsValueShowNat(n / 10);
      var s := ShowNat(n);
      assert s[..|s| - 1] == ShowNat(n / 10);
    }
  }

  lemma StripDigits(s: string)
    requires s != [] && AllDigits(s)
    ensures Strip(s) == s
  {
    assert !IsSpace(s[0]);
    assert StripLeft(s) == s;
    assert !IsSpace(s[|s| - 1]);
  }

  /** `str(n)` starts and ends with a character `strip()` keeps, and holds only digits and '-'. */
  lemma ShowEnds(n: int)
    ensures var s := Show(n);
      && s != [] && !IsSpace(s[0]) && !IsSpace(s[|s| - 1])
      && forall k :: 0 <= k < |s| ==> s[k] == '-' || IsDigit(s[k])
  {
    if n < 0 {
      var d := ShowNat(-n);
      assert forall k :: 1 <= k < |Show(n)| ==> Show(n)[k] == d[k - 1];
    }
  }

  lemma StripShow(n: int)
    ensures Strip(Show(n)) == Show(n)
  {
    if n < 0 {
      var s := Show(n);
      ShowEnds(n);
      assert StripLeft(s) == s;
    } else {
      StripDigits(ShowNat(n));
    }
  }

  /** `int(str(n)) == n`: `int()` reads back every number Python prints. */
  lemma ParseIntShow(n: int)
    ensures ParseInt(Show(n)) == Some(n)
  {
    StripShow(n);
    if n < 0 {
      var d := ShowNat(-n);
      assert Show(n)[1..] == d;
      DigitsValueShowNat(-n);
    } else {
      DigitsValueShowNat(n);
    }
  }

  /** Text that starts with a non-space keeps its start under `lstrip()`. */
  lemma StripLeftNonSpace(s: string)
    requires s != [] && !IsSpace(s[0])
    ensures StripLeft(s) == s
  {
  }

  /** `rstrip()` removes exactly the whitespace after text that ends with a non-space. */
  lemma StripRightPadded(d: string, ws: string)
    requires d != [] && !IsSpace(d[|d| - 1])
    requires forall k :: 0 <= k < |ws| ==> IsSpace(ws[k])
    ensures StripRight(d + ws) == d
  {
    var u := d + ws;
    var r := StripRight(u);
    assert |r| >= |d| by {
      assert u[|d| - 1] == d[|d| - 1];
    }
    assert r == u[..|d|] == d;
  }

  /** Trailing whitespace after text that starts and ends with a non-space is all `strip()` removes. */
  lemma StripPadded(d: string, ws: string)
    requires d != [] && !IsSpace(d[0]) && !IsSpace(d[|d| - 1])
    requires forall k :: 0 <= k < |ws| ==> IsSpace(ws[k])
    ensures Strip(d + ws) == d
  {
    assert (d + ws)[0] == d[0];
    StripLeftNonSpace(d + ws);
    StripRightPadded(d, ws);
  }

  /** Trailing whitespace does not change what `int()` reads: `int(str(n) + "\r\n") == n`. */
  lemma ParseIntShowPadded(n: int, ws: string)
    requires forall k :: 0 <= k < |ws| ==> IsSpace(ws[k])
    ensures ParseInt(Show(n) + ws) == Some(n)
  {
    ShowEnds(n);
    StripPadded(Show(n), ws);
    StripShow(n);
    ParseIntShow(n);
  }

  /**
   * Text that starts with a non-space, followed by a space and more text
   * that starts with a non-space, is not a number: `int()` raises on it,
   * whatever whitespace ends the text.
   */
  lemma ParseIntRejectsTrailingText(s: string, rest: string)
    requires s != [] && !IsSpace(s[0])
    requires rest != [] && !IsSpace(rest[0])
    ensures ParseInt(s + " " + rest) == None
  {
    var u := s + " " + rest;
    assert u[0] == s[0];
    StripLeftNonSpace(u);
    var t := StripRight(u);
    assert |t| > |s| + 1 by {
      assert u[|s| + 1] == rest[0];
    }
    assert t[|s|] == u[|s|] == ' ';
    assert !AllDigits(t[1..]) by {
      assert t[1..][|s| - 1] == ' ';
    }
  }

}
