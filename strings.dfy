/**
 * The .NET string operations the marker pipeline relies on, with the
 * meaning each one has on the runtime (all of them ordinal, that is,
 * character-by-character and case-sensitive):
 *   `s.Trim()`               TrimWhiteSpace(s)
 *   `s.Trim('"')`            TrimQuotes(s)
 *   `s.Replace(pat, "")`     RemoveAll(s, pat)
 *   `s.Contains(sub)`        Contains(s, sub)
 *   `s.Split(c)`             Split(s, c)
 *   `string.IsNullOrEmpty`, `string.IsNullOrWhiteSpace` on a possibly-null string.
 */
module Strings {
  import opened Results

  /** `Char.IsWhiteSpace`: the characters of the Unicode White_Space property. */
  predicate IsWhiteSpace(c: char) {
    || ('\U{9}' <= c <= '\U{D}')
    || c == ' '
    || c == '\U{85}'
    || c == '\U{A0}'
    || c == '\U{1680}'
    || ('\U{2000}' <= c <= '\U{200A}')
    || c == '\U{2028}'
    || c == '\U{2029}'
    || c == '\U{202F}'
    || c == '\U{205F}'
    || c == '\U{3000}'
  }

  predicate IsQuote(c: char) {
    c == '"'
  }

  /** Drops every leading character satisfying `drop`. */
  function TrimStart(s: string, drop: char -> bool): (r: string)
    ensures |r| <= |s| && r == s[|s| - |r|..]
    ensures forall k :: 0 <= k < |s| - |r| ==> drop(s[k])
    ensures r != [] ==> !drop(r[0])
    decreases |s|
  {
    if s != [] && drop(s[0]) then TrimStart(s[1..], drop) else s
  }

  /** Drops every trailing character satisfying `drop`. */
  function TrimEnd(s: string, drop: char -> bool): (r: string)
    ensures |r| <= |s| && r == s[..|r|]
    ensures forall k :: |r| <= k < |s| ==> drop(s[k])
    ensures r != [] ==> !drop(r[|r| - 1])
    decreases |s|
  {
    if s != [] && drop(s[|s| - 1]) then TrimEnd(s[..|s| - 1], drop) else s
  }

  /** Drops leading and trailing characters satisfying `drop`. */
  function Trim(s: string, drop: char -> bool): string {
    TrimEnd(TrimStart(s, drop), drop)
  }

  /** The number of leading characters the trim drops. */
  function Lead(s: string, drop: char -> bool): nat {
    |s| - |TrimStart(s, drop)|
  }

  /** The trim is a slice of `s`, starting after the dropped prefix. */
  lemma TrimIsSliceAfterLead(s: string, drop: char -> bool)
    ensures Lead(s, drop) + |Trim(s, drop)| <= |s|
    ensures Trim(s, drop) == s[Lead(s, drop)..Lead(s, drop) + |Trim(s, drop)|]
  {
    var t := TrimStart(s, drop);
    var r := TrimEnd(t, drop);
    assert t == s[Lead(s, drop)..];
    assert r == t[..|r|];
  }

  /** Every character the trim drops in front satisfies `drop`. */
  lemma TrimDropsLeading(s: string, drop: char -> bool)
    ensures forall k :: 0 <= k < Lead(s, drop) ==> drop(s[k])
  {
  }

  /** One character the trim drops at the back. */
  lemma TrimDropsTrailingAt(s: string, drop: char -> bool, k: nat)
    requires Lead(s, drop) + |Trim(s, drop)| <= k < |s|
    ensures drop(s[k])
  {
    var t := TrimStart(s, drop);
    var lead := |s| - |t|;
    var i := k - lead;
    assert |TrimEnd(t, drop)| <= i < |t|;
    assert drop(t[i]);
    assert t[i] == s[k];
  }

  /** Every character the trim drops at the back satisfies `drop`. */
  lemma TrimDropsTrailing(s: string, drop: char -> bool)
    ensures forall k :: Lead(s, drop) + |Trim(s, drop)| <= k < |s| ==> drop(s[k])
  {
    forall k | Lead(s, drop) + |Trim(s, drop)| <= k < |s|
      ensures drop(s[k])
    {
      TrimDropsTrailingAt(s, drop, k);
    }
  }

  /** The trim neither starts nor ends with a character satisfying `drop`. */
  lemma TrimKeepsEnds(s: string, drop: char -> bool)
    ensures var r := Trim(s, drop);
            r != [] ==> !drop(r[0]) && !drop(r[|r| - 1])
  {
    var t := TrimStart(s, drop);
    var r := TrimEnd(t, drop);
    if r != [] {
      assert r[0] == t[0];
    }
  }

  /**
   * The trim is the slice of `s` left between a run of dropped characters on
   * either side, and it neither starts nor ends with one.
   */
  lemma TrimSpec(s: string, drop: char -> bool)
    ensures var r := Trim(s, drop);
            var lead := Lead(s, drop);
            && lead + |r| <= |s|
            && r == s[lead..lead + |r|]
            && (forall k :: 0 <= k < lead ==> drop(s[k]))
            && (forall k :: lead + |r| <= k < |s| ==> drop(s[k]))
            && (r != [] ==> !drop(r[0]) && !drop(r[|r| - 1]))
  {
    TrimIsSliceAfterLead(s, drop);
    TrimDropsLeading(s, drop);
    TrimDropsTrailing(s, drop);
    TrimKeepsEnds(s, drop);
  }

  function TrimWhiteSpace(s: string): string {
    Trim(s, IsWhiteSpace)
  }

  function TrimQuotes(s: string): string {
    Trim(s, IsQuote)
  }

  /** Trimming is idempotent. */
  lemma TrimIdempotent(s: string, drop: char -> bool)
    ensures Trim(Trim(s, drop), drop) == Trim(s, drop)
  {
    TrimLeavesUntouched(Trim(s, drop), drop);
  }

  /** A string whose ends are kept is its own trim. */
  lemma TrimLeavesUntouched(s: string, drop: char -> bool)
    requires s != [] ==> !drop(s[0]) && !drop(s[|s| - 1])
    ensures Trim(s, drop) == s
  {
    assert TrimStart(s, drop) == s;
  }

  /** Trimming the front stops at the first kept character. */
  lemma {:induction false} TrimStartStopsAt(s: string, drop: char -> bool, i: nat)
    requires i < |s|
    requires forall k :: 0 <= k < i ==> drop(s[k])
    requires !drop(s[i])
    ensures TrimStart(s, drop) == s[i..]
    decreases i
  {
    if i > 0 {
      forall k | 0 <= k < i - 1
        ensures drop(s[1..][k])
      {
        assert s[1..][k] == s[k + 1];
      }
      TrimStartStopsAt(s[1..], drop, i - 1);
      assert s[1..][i - 1..] == s[i..];
    }
  }

  /** Trimming the back stops after the last kept character. */
  lemma {:induction false} TrimEndStopsAt(s: string, drop: char -> bool, j: nat)
    requires 0 < j <= |s|
    requires forall k :: j <= k < |s| ==> drop(s[k])
    requires !drop(s[j - 1])
    ensures TrimEnd(s, drop) == s[..j]
    decreases |s| - j
  {
    if j < |s| {
      var s' := s[..|s| - 1];
      forall k | j <= k < |s'|
        ensures drop(s'[k])
      {
        assert s'[k] == s[k];
      }
      TrimEndStopsAt(s', drop, j);
      assert s'[..j] == s[..j];
    }
  }

  /** Trimming the back of a suffix of `s` keeps it up to the last kept character of `s`. */
  lemma TrimEndOfSuffix(s: string, drop: char -> bool, i: nat, j: nat)
    requires i < j <= |s|
    requires forall k :: j <= k < |s| ==> drop(s[k])
    requires !drop(s[j - 1])
    ensures TrimEnd(s[i..], drop) == s[i..j]
  {
    var t := s[i..];
    forall k | j - i <= k < |t|
      ensures drop(t[k])
    {
      assert t[k] == s[k + i];
    }
    assert t[j - i - 1] == s[j - 1];
    TrimEndStopsAt(t, drop, j - i);
    assert t[..j - i] == s[i..j];
  }

  /** Conversely, a slice framed by dropped characters and ending in kept ones is the trim. */
  lemma TrimIsSlice(s: string, drop: char -> bool, i: nat, j: nat)
    requires i < j <= |s|
    requires forall k :: 0 <= k < i ==> drop(s[k])
    requires forall k :: j <= k < |s| ==> drop(s[k])
    requires !drop(s[i]) && !drop(s[j - 1])
    ensures Trim(s, drop) == s[i..j]
  {
    TrimStartStopsAt(s, drop, i);
    TrimEndOfSuffix(s, drop, i, j);
  }

  /** A text with no quote at either end, which `Trim('"')` leaves alone. */
  predicate Unquoted(text: string) {
    (text != [] ==> text[0] != '"' && text[|text| - 1] != '"') && TrimQuotes(text) == text
  }

  /** `Trim('"')` leaves no quote at either end, and a second trim changes nothing. */
  lemma TrimQuotesShape(s: string)
    ensures Unquoted(TrimQuotes(s))
  {
    var r := TrimQuotes(s);
    assert r != [] ==> !IsQuote(r[0]) && !IsQuote(r[|r| - 1]);
    TrimLeavesUntouched(r, IsQuote);
  }

  /** Ordinal `s.Contains(sub)`. */
  predicate Contains(s: string, sub: string)
    decreases |s|
  {
    sub <= s || (s != [] && Contains(s[1..], sub))
  }

  /** `sub` occurs in `s` starting at position `i`. */
  predicate OccursAt(s: string, sub: string, i: int) {
    0 <= i && i + |sub| <= |s| && s[i..i + |sub|] == sub
  }

  /** `Contains` holds exactly when `sub` occurs at some position of `s`. */
  lemma {:induction false} ContainsAt(s: string, sub: string)
    ensures Contains(s, sub) <==> exists i :: OccursAt(s, sub, i)
    decreases |s|
  {
    if sub <= s {
      assert OccursAt(s, sub, 0);
    } else if s == [] {
      assert forall i :: !OccursAt(s, sub, i);
    } else {
      ContainsAt(s[1..], sub);
      if exists i :: OccursAt(s, sub, i) {
        var i :| OccursAt(s, sub, i);
        assert i != 0;
        assert OccursAt(s[1..], sub, i - 1);
      }
      if Contains(s[1..], sub) {
        var i :| OccursAt(s[1..], sub, i);
        assert s[i + 1..i + 1 + |sub|] == s[1..][i..i + |sub|];
        assert OccursAt(s, sub, i + 1);
      }
    }
  }

  /** A string shorter than `sub` cannot contain it. */
  lemma {:induction false} ShorterDoesNotContain(s: string, sub: string)
    requires |s| < |sub|
    ensures !Contains(s, sub)
    decreases |s|
  {
    if s != [] {
      ShorterDoesNotContain(s[1..], sub);
    }
  }

  /**
   * Ordinal `s.Replace(pat, "")`: scanning left to right, every occurrence of
   * `pat` is deleted and the scan resumes after it; the output is not scanned
   * again. The string comes back unchanged exactly when it does not contain
   * `pat` (.NET refuses an empty `pat`).
   */
  function RemoveAll(s: string, pat: string): (r: string)
    requires pat != []
    ensures |r| <= |s|
    ensures Contains(s, pat) ==> |r| < |s|
    ensures !Contains(s, pat) ==> r == s
    decreases |s|
  {
    if pat <= s then RemoveAll(s[|pat|..], pat)
    else if s == [] then []
    else
      assert s == [s[0]] + s[1..];
      [s[0]] + RemoveAll(s[1..], pat)
  }

  /** A first character that does not start an occurrence of `pat` is copied to the output. */
  lemma RemoveAllKeepsHead(c: char, s: string, pat: string)
    requires pat != []
    requires !(pat <= [c] + s)
    ensures RemoveAll([c] + s, pat) == [c] + RemoveAll(s, pat)
  {
    var t := [c] + s;
    assert t[0] == c && t[1..] == s;
  }

  /** The condition of `RemoveAllKeepsPrefix` carries over to the tail of the prefix. */
  lemma NoOccurrenceInTail(a: string, s: string, pat: string)
    requires a != []
    requires forall k :: 0 <= k < |a| ==> !(pat <= (a + s)[k..])
    ensures !(pat <= [a[0]] + (a[1..] + s))
    ensures forall k :: 0 <= k < |a[1..]| ==> !(pat <= (a[1..] + s)[k..])
  {
    var t := a + s;
    assert t == [a[0]] + (a[1..] + s);
    assert !(pat <= t[0..]);
    assert t[0..] == t;
    forall k | 0 <= k < |a[1..]|
      ensures !(pat <= (a[1..] + s)[k..])
    {
      assert (a[1..] + s)[k..] == t[k + 1..];
    }
  }

  /** A prefix none of whose positions starts an occurrence of `pat` passes through unchanged. */
  lemma {:induction false} RemoveAllKeepsPrefix(a: string, s: string, pat: string)
    requires pat != []
    requires forall k :: 0 <= k < |a| ==> !(pat <= (a + s)[k..])
    ensures RemoveAll(a + s, pat) == a + RemoveAll(s, pat)
    decreases |a|
  {
    if a == [] {
      assert a + s == s;
    } else {
      NoOccurrenceInTail(a, s, pat);
      RemoveAllKeepsPrefix(a[1..], s, pat);
      RemoveAllKeepsHead(a[0], a[1..] + s, pat);
      assert a + s == [a[0]] + (a[1..] + s);
      assert a == [a[0]] + a[1..];
    }
  }

  /** A leading occurrence of `pat` is deleted. */
  lemma RemoveAllDropsLeading(s: string, pat: string)
    requires pat != []
    ensures RemoveAll(pat + s, pat) == RemoveAll(s, pat)
  {
    assert pat <= pat + s;
    assert (pat + s)[|pat|..] == s;
  }

  /** `s.Split(sep)`: the pieces between separators, with empty pieces kept. */
  function Split(s: string, sep: char): (parts: seq<string>)
    ensures |parts| >= 1
    ensures forall i :: 0 <= i < |parts| ==> sep !in parts[i]
    decreases |s|
  {
    if s == [] then [[]]
    else
      var rest := Split(s[1..], sep);
      if s[0] == sep then [[]] + rest
      else [[s[0]] + rest[0]] + rest[1..]
  }

  /** String.Join with a one-character separator. */
  function Join(parts: seq<string>, sep: char): string
    requires |parts| >= 1
    decreases |parts|
  {
    if |parts| == 1 then parts[0] else parts[0] + [sep] + Join(parts[1..], sep)
  }

  /** Joining the pieces gives the string back. */
  lemma {:induction false} JoinSplit(s: string, sep: char)
    ensures Join(Split(s, sep), sep) == s
    decreases |s|
  {
    if s != [] {
      JoinSplit(s[1..], sep);
      var rest := Split(s[1..], sep);
      if s[0] == sep {
        JoinAfterEmptyPiece(rest, sep);
      } else {
        JoinAfterCharacter(s[0], rest, sep);
      }
      assert s == [s[0]] + s[1..];
    }
  }

  /** An empty first piece contributes only its separator. */
  lemma JoinAfterEmptyPiece(rest: seq<string>, sep: char)
    requires |rest| >= 1
    ensures Join([[]] + rest, sep) == [sep] + Join(rest, sep)
  {
    var parts := [[]] + rest;
    assert parts[0] == [] && parts[1..] == rest;
  }

  /** A character put in front of the first piece comes first in the joined string. */
  lemma JoinAfterCharacter(c: char, rest: seq<string>, sep: char)
    requires |rest| >= 1
    ensures Join([[c] + rest[0]] + rest[1..], sep) == [c] + Join(rest, sep)
  {
    var parts := [[c] + rest[0]] + rest[1..];
    assert parts[0] == [c] + rest[0] && parts[1..] == rest[1..];
  }

  /** There is one piece more than there are separators. */
  lemma {:induction false} SplitCount(s: string, sep: char)
    ensures |Split(s, sep)| == multiset(s)[sep] + 1
    decreases |s|
  {
    if s != [] {
      SplitCount(s[1..], sep);
      assert s == [s[0]] + s[1..];
      assert multiset(s) == multiset([s[0]]) + multiset(s[1..]);
    }
  }

  /** A string without the separator is a single piece. */
  lemma {:induction false} SplitWithoutSeparator(s: string, sep: char)
    requires sep !in s
    ensures Split(s, sep) == [s]
  {
    JoinSplit(s, sep);
    SplitCount(s, sep);
    assert multiset(s)[sep] == 0;
  }

  /** Splitting after a separator-free piece and a separator yields that piece first. */
  lemma {:induction false} SplitAfterPiece(a: string, sep: char, rest: string)
    requires sep !in a
    ensures Split(a + [sep] + rest, sep) == [a] + Split(rest, sep)
    decreases |a|
  {
    var s := a + [sep] + rest;
    if a == [] {
      assert s == [sep] + rest;
      assert s[1..] == rest;
    } else {
      assert s[0] == a[0];
      assert s[1..] == a[1..] + [sep] + rest;
      SplitAfterPiece(a[1..], sep, rest);
      assert a == [a[0]] + a[1..];
    }
  }

  /** Splitting undoes joining, when no piece holds the separator. */
  lemma {:induction false} SplitJoin(parts: seq<string>, sep: char)
    requires |parts| >= 1
    requires forall i :: 0 <= i < |parts| ==> sep !in parts[i]
    ensures Split(Join(parts, sep), sep) == parts
    decreases |parts|
  {
    if |parts| == 1 {
      SplitWithoutSeparator(parts[0], sep);
    } else {
      SplitJoin(parts[1..], sep);
      SplitAfterPiece(parts[0], sep, Join(parts[1..], sep));
      assert parts == [parts[0]] + parts[1..];
    }
  }

  /** `string.IsNullOrEmpty`. */
  predicate IsNullOrEmpty(s: Option<string>) {
    s.None? || s.value == []
  }

  /** `string.IsNullOrWhiteSpace`. */
  predicate IsNullOrWhiteSpace(s: Option<string>) {
    s.None? || forall i :: 0 <= i < |s.value| ==> IsWhiteSpace(s.value[i])
  }

  /** The white-space test is the stricter one: it also refuses blank strings. */
  lemma NullOrEmptyIsNullOrWhiteSpace(s: Option<string>)
    ensures IsNullOrEmpty(s) ==> IsNullOrWhiteSpace(s)
    ensures IsNullOrWhiteSpace(Some(" ")) && !IsNullOrEmpty(Some(" "))
  {
  }
}
