/**
 * The JavaScript string built-ins the prompt engine relies on, written out over `seq<char>`:
 * `substring` (with its clamping and argument swap), `trim`/`trimStart`, the `\s` character
 * class, `startsWith`/`endsWith`, `split`/`join` on a single character, `indexOf`,
 * `lastIndexOf`, `replace` of the first occurrence, a global literal `replace`, and `repeat`.
 */
module JsString {
  import opened Wrappers
  import Seqs

  /**
   * ECMAScript WhiteSpace and LineTerminator code points, what `\s` and `trim()` recognise:
   * tab to carriage return, space, no-break space, ogham space mark, U+2000 to U+200A, the line
   * and paragraph separators, narrow no-break space, medium mathematical space, ideographic
   * space and the byte order mark.
   */
  predicate IsWs(c: char) {
    ('\t' <= c <= '\r') || c == ' ' || c == '\U{A0}' || c == '\U{1680}'
    || ('\U{2000}' <= c <= '\U{200A}') || c == '\U{2028}' || c == '\U{2029}' || c == '\U{202F}'
    || c == '\U{205F}' || c == '\U{3000}' || c == '\U{FEFF}'
  }

  predicate AllWs(s: string) {
    forall i :: 0 <= i < |s| ==> IsWs(s[i])
  }

  /** A string that neither starts nor ends with whitespace (what `trim()` produces). */
  predicate NoEdgeWs(t: string) {
    t == [] || (!IsWs(t[0]) && !IsWs(t[|t| - 1]))
  }

  function Clamp(i: int, n: nat): (r: nat)
    ensures r <= n
    ensures 0 <= i <= n ==> r == i
  {
    if i < 0 then 0 else if i > n then n else i
  }

  /** `s.substring(start, end)`: both bounds clamped to [0, |s|], swapped when start > end. */
  function Substring(s: string, start: int, end: int): (r: string)
    ensures |r| <= |s|
    ensures 0 <= start <= end <= |s| ==> r == s[start..end]
    ensures 0 <= end <= start <= |s| ==> r == s[end..start]
  {
    var a, b := Clamp(start, |s|), Clamp(end, |s|);
    if a <= b then s[a..b] else s[b..a]
  }

  predicate StartsWith(s: string, prefix: string) {
    |prefix| <= |s| && s[..|prefix|] == prefix
  }

  predicate EndsWith(s: string, suffix: string) {
    |suffix| <= |s| && s[|s| - |suffix|..] == suffix
  }

  predicate OccursAt(s: string, pat: string, j: int) {
    0 <= j && j + |pat| <= |s| && s[j..j + |pat|] == pat
  }

  /** An occurrence of `pat` puts its last character into `s`. */
  lemma OccurrenceEnd(s: string, pat: string, j: int)
    requires OccursAt(s, pat, j) && |pat| > 0
    ensures s[j + |pat| - 1] == pat[|pat| - 1] && pat[|pat| - 1] in s
  {
    assert s[j..j + |pat|][|pat| - 1] == s[j + |pat| - 1];
  }

  /** An occurrence of `pat` puts its first character at its position. */
  /** Every occurrence puts the pattern's last character into the text. */
  lemma OccurrencesHoldLast(s: string, pat: string)
    requires |pat| > 0
    ensures forall j :: OccursAt(s, pat, j) ==> pat[|pat| - 1] in s
  {
    forall j | OccursAt(s, pat, j) ensures pat[|pat| - 1] in s {
      OccurrenceEnd(s, pat, j);
    }
  }

  lemma OccurrenceStart(s: string, pat: string, j: int)
    requires OccursAt(s, pat, j) && |pat| > 0
    ensures s[j] == pat[0]
  {
    assert s[j..j + |pat|][0] == s[j];
  }

  /** End of the whitespace run that starts at `i`. */
  function WsRunFrom(s: string, i: nat): (n: nat)
    requires i <= |s|
    ensures i <= n <= |s|
    ensures forall k :: i <= k < n ==> IsWs(s[k])
    ensures n < |s| ==> !IsWs(s[n])
    decreases |s| - i
  {
    if i == |s| || !IsWs(s[i]) then i else WsRunFrom(s, i + 1)
  }

  /** Start of the whitespace run that ends just before `j`. */
  function WsRunTo(s: string, j: nat): (n: nat)
    requires j <= |s|
    ensures n <= j
    ensures forall k :: n <= k < j ==> IsWs(s[k])
    ensures 0 < n ==> !IsWs(s[n - 1])
  {
    if j == 0 || !IsWs(s[j - 1]) then j else WsRunTo(s, j - 1)
  }

  /** Any maximal leading whitespace run is the one `WsRunFrom` finds. */
  lemma LeadingRunUnique(s: string, n: nat)
    requires n <= |s| && AllWs(s[..n])
    requires n < |s| ==> !IsWs(s[n])
    ensures WsRunFrom(s, 0) == n
  {
  }

  /** Any maximal trailing whitespace run is the one `WsRunTo` finds. */
  lemma TrailingRunUnique(s: string, n: nat)
    requires n <= |s| && AllWs(s[n..])
    requires 0 < n ==> !IsWs(s[n - 1])
    ensures WsRunTo(s, |s|) == n
  {
  }

  /** The maximal leading whitespace run, i.e. the match of `/^(\s*)/`. */
  function LeadingWs(s: string): string {
    s[..WsRunFrom(s, 0)]
  }

  /** The maximal trailing whitespace run, i.e. the match of `/(\s*)$/`. */
  function TrailingWs(s: string): string {
    s[WsRunTo(s, |s|)..]
  }

  /** `s.trimStart()` */
  function TrimStart(s: string): string {
    s[WsRunFrom(s, 0)..]
  }

  /** `s.trim()` */
  function Trim(s: string): (r: string)
    ensures NoEdgeWs(r)
    ensures AllWs(s) <==> r == []
  {
    var a := WsRunFrom(s, 0);
    if a == |s| then [] else s[a..WsRunTo(s, |s|)]
  }

  /** `" ".repeat(n)` */
  function Spaces(n: nat): (r: string)
    ensures |r| == n && AllWs(r)
    ensures forall i :: 0 <= i < n ==> r[i] == ' '
  {
    if n == 0 then [] else [' '] + Spaces(n - 1)
  }

  lemma LeadingWsOf(l: string, t: string)
    requires AllWs(l)
    requires t == [] || !IsWs(t[0])
    ensures LeadingWs(l + t) == l
  {
    var s := l + t;
    assert s[..|l|] == l;
    if |l| < |s| {
      assert s[|l|] == t[0];
    }
    LeadingRunUnique(s, |l|);
  }

  lemma TrailingWsOf(t: string, l: string)
    requires AllWs(l)
    requires t == [] || !IsWs(t[|t| - 1])
    ensures TrailingWs(t + l) == l
  {
    var s := t + l;
    assert s[|t|..] == l;
    if 0 < |t| {
      assert s[|t| - 1] == t[|t| - 1];
    }
    TrailingRunUnique(s, |t|);
  }

  lemma AllWsLeadingTrailing(s: string)
    requires AllWs(s)
    ensures LeadingWs(s) == s && TrailingWs(s) == s && Trim(s) == []
  {
    LeadingRunUnique(s, |s|);
    TrailingRunUnique(s, 0);
  }

  /** A string with some non-whitespace splits into its two whitespace runs around `trim()`. */
  lemma TrimDecomposition(s: string)
    requires !AllWs(s)
    ensures s == LeadingWs(s) + Trim(s) + TrailingWs(s)
    ensures Trim(s) != []
  {
    var a, b := WsRunFrom(s, 0), WsRunTo(s, |s|);
    assert a < |s|;
    assert a < b;
    assert s == s[..a] + s[a..b] + s[b..];
  }

  /** Trimming strips exactly the whitespace runs put around a trimmed core. */
  lemma TrimOfPadded(l: string, t: string, r: string)
    requires AllWs(l) && AllWs(r) && NoEdgeWs(t)
    ensures Trim(l + t + r) == t
  {
    var s := l + t + r;
    if t == [] {
      assert AllWs(s) by {
        forall k | 0 <= k < |s| ensures IsWs(s[k]) {
          if k < |l| { assert s[k] == l[k]; } else { assert s[k] == r[k - |l|]; }
        }
      }
    } else {
      assert s[..|l|] == l;
      assert s[|l|] == t[0];
      LeadingRunUnique(s, |l|);
      assert s[|l| + |t|..] == r;
      assert s[|l| + |t| - 1] == t[|t| - 1];
      TrailingRunUnique(s, |l| + |t|);
      assert s[|l|..|l| + |t|] == t;
    }
  }

  /** A trimmed, non-empty core framed by whitespace runs: the runs and the core come back apart. */
  lemma PaddedParts(l: string, t: string, r: string)
    requires AllWs(l) && AllWs(r) && NoEdgeWs(t) && t != []
    ensures LeadingWs(l + t + r) == l && TrailingWs(l + t + r) == r && Trim(l + t + r) == t
  {
    assert l + t + r == l + (t + r);
    assert (t + r)[0] == t[0];
    LeadingWsOf(l, t + r);
    assert (l + t)[|l + t| - 1] == t[|t| - 1];
    TrailingWsOf(l + t, r);
    TrimOfPadded(l, t, r);
  }

  /** Re-indenting a line: `trimStart` ignores any indentation put in front of a trimmed line. */
  lemma TrimStartOfIndented(n: nat, x: string)
    ensures TrimStart(Spaces(n) + TrimStart(x)) == TrimStart(x)
    ensures Trim(Spaces(n) + TrimStart(x)) == Trim(x)
  {
    var t := TrimStart(x);
    LeadingWsOf(Spaces(n), t);
    if AllWs(x) {
      IndentedBlank(Spaces(n), x);
    } else {
      IndentedText(Spaces(n), x);
    }
  }

  lemma IndentedBlank(p: string, x: string)
    requires AllWs(p) && AllWs(x)
    ensures Trim(p + TrimStart(x)) == Trim(x)
  {
    AllWsLeadingTrailing(x);
    assert p + TrimStart(x) == p;
    AllWsLeadingTrailing(p);
  }

  lemma IndentedText(p: string, x: string)
    requires AllWs(p) && !AllWs(x)
    ensures Trim(p + TrimStart(x)) == Trim(x)
  {
    var t := TrimStart(x);
    TrimDecomposition(x);
    var l, m, r := LeadingWs(x), Trim(x), TrailingWs(x);
    assert l + t == l + (m + r);
    assert t == m + r;
    assert p + t == p + m + r;
    TrimOfPadded(p, m, r);
  }

  /** `s.split(sep)` for a one-character separator. */
  function Split(s: string, sep: char): (r: seq<string>)
    ensures |r| >= 1
    ensures forall i :: 0 <= i < |r| ==> sep !in r[i]
  {
    if s == [] then [[]]
    else
      var rest := Split(s[1..], sep);
      if s[0] == sep then [[]] + rest else [[s[0]] + rest[0]] + rest[1..]
  }

  /** `parts.join(sep)` */
  function Join(parts: seq<string>, sep: string): string {
    if |parts| == 0 then []
    else if |parts| == 1 then parts[0]
    else parts[0] + sep + Join(parts[1..], sep)
  }

  lemma {:induction false} JoinSplit(s: string, sep: char)
    ensures Join(Split(s, sep), [sep]) == s
  {
    if s != [] {
      var rest := Split(s[1..], sep);
      JoinSplit(s[1..], sep);
      if s[0] == sep {
        assert Join([[]] + rest, [sep]) == [] + [sep] + Join(rest, [sep]) by {
          assert ([[]] + rest)[1..] == rest;
        }
        assert s == [sep] + s[1..];
      } else {
        var r := [[s[0]] + rest[0]] + rest[1..];
        if |rest| == 1 {
          assert s == [s[0]] + s[1..];
        } else {
          assert r[1..] == rest[1..];
          assert Join(rest, [sep]) == rest[0] + [sep] + Join(rest[1..], [sep]);
          assert s == [s[0]] + s[1..];
        }
      }
    }
  }

  lemma {:induction false} SplitNoSep(a: string, sep: char)
    requires sep !in a
    ensures Split(a, sep) == [a]
  {
    if a != [] {
      SplitNoSep(a[1..], sep);
      assert [a[0]] + a[1..] == a;
    }
  }

  lemma {:induction false} SplitAtSep(a: string, b: string, sep: char)
    requires sep !in a
    ensures Split(a + [sep] + b, sep) == [a] + Split(b, sep)
  {
    if a == [] {
      assert a + [sep] + b == [sep] + b;
      assert ([sep] + b)[1..] == b;
    } else {
      assert (a + [sep] + b)[1..] == a[1..] + [sep] + b;
      SplitAtSep(a[1..], b, sep);
      assert [a[0]] + a[1..] == a;
    }
  }

  /** Splitting a joined list gives the list back when no part holds the separator. */
  lemma {:induction false} SplitJoin(parts: seq<string>, sep: char)
    requires |parts| >= 1
    requires forall i :: 0 <= i < |parts| ==> sep !in parts[i]
    ensures Split(Join(parts, [sep]), sep) == parts
  {
    if |parts| == 1 {
      SplitNoSep(parts[0], sep);
    } else {
      SplitJoin(parts[1..], sep);
      SplitAtSep(parts[0], Join(parts[1..], [sep]), sep);
      assert [parts[0]] + parts[1..] == parts;
    }
  }

  /** An occurrence stays an occurrence when text is added on either side. */
  lemma OccursInContext(a: string, b: string, c: string, pat: string, j: int)
    requires OccursAt(b, pat, j)
    ensures OccursAt(a + b + c, pat, |a| + j)
  {
    assert (a + b + c)[|a| + j..|a| + j + |pat|] == b[j..j + |pat|];
  }

  /** An occurrence after which the pattern's last character never appears is the last one. */
  lemma LastOccurrence(s: string, pat: string, q0: nat)
    requires |pat| > 0 && OccursAt(s, pat, q0)
    requires forall k :: q0 + |pat| <= k < |s| ==> s[k] != pat[|pat| - 1]
    ensures LastIndexOf(s, pat, |s|) == Some(q0)
  {
    var last := LastIndexOf(s, pat, |s|);
    if last.Some? && last.value > q0 {
      OccurrenceEnd(s, pat, last.value);
    }
  }

  /** An occurrence stays an occurrence when text is put in front. */
  lemma OccursAfter(a: string, b: string, pat: string, j: int)
    requires OccursAt(b, pat, j)
    ensures OccursAt(a + b, pat, |a| + j)
  {
    assert (a + b)[|a| + j..|a| + j + |pat|] == b[j..j + |pat|];
  }

  /** Every part of a joined list occurs in the result; returns where. */
  lemma {:induction false} JoinContains(parts: seq<string>, sep: string, i: nat) returns (j: nat)
    requires i < |parts|
    ensures OccursAt(Join(parts, sep), parts[i], j)
  {
    if |parts| == 1 {
      j := 0;
      assert Join(parts, sep)[0..|parts[0]|] == parts[0];
    } else if i == 0 {
      j := 0;
      OccursInContext([], parts[0], sep + Join(parts[1..], sep), parts[0], 0);
      assert [] + parts[0] + (sep + Join(parts[1..], sep)) == Join(parts, sep);
    } else {
      var k := JoinContains(parts[1..], sep, i - 1);
      OccursInContext(parts[0] + sep, Join(parts[1..], sep), [], parts[i], k);
      assert parts[0] + sep + Join(parts[1..], sep) + [] == Join(parts, sep);
      j := |parts[0] + sep| + k;
    }
  }

  /** `s.indexOf(pat, from)` as an option: the first occurrence at or after `from`. */
  function IndexOf(s: string, pat: string, from: nat): (r: Option<nat>)
    ensures r.Some? ==> from <= r.value && OccursAt(s, pat, r.value)
    ensures r.Some? ==> forall j :: from <= j < r.value ==> !OccursAt(s, pat, j)
    ensures r.None? ==> forall j :: from <= j ==> !OccursAt(s, pat, j)
    decreases |s| - from
  {
    if from + |pat| > |s| then None
    else if s[from..from + |pat|] == pat then Some(from)
    else IndexOf(s, pat, from + 1)
  }

  /** The last occurrence of `pat` starting at or before `upto` (`lastIndexOf`). */
  function LastIndexOf(s: string, pat: string, upto: int): (r: Option<nat>)
    ensures r.Some? ==> r.value <= upto && OccursAt(s, pat, r.value)
    ensures r.Some? ==> forall j :: r.value < j <= upto ==> !OccursAt(s, pat, j)
    ensures r.None? ==> forall j :: j <= upto ==> !OccursAt(s, pat, j)
    decreases upto
  {
    if upto < 0 then None
    else if OccursAt(s, pat, upto) then Some(upto)
    else LastIndexOf(s, pat, upto - 1)
  }

  /** `s.replace(pat, rep)` with a string pattern: only the first occurrence is replaced. */
  function ReplaceFirst(s: string, pat: string, rep: string): (r: string)
    ensures IndexOf(s, pat, 0).None? ==> r == s
    ensures IndexOf(s, pat, 0).Some? ==>
      var i := IndexOf(s, pat, 0).value; r == s[..i] + rep + s[i + |pat|..]
  {
    match IndexOf(s, pat, 0)
    case None => s
    case Some(i) => s[..i] + rep + s[i + |pat|..]
  }

  /** `s.replace(new RegExp(pat, "g"), "")` for a pattern with no special characters:
      matches are found left to right and do not overlap. */
  function RemoveAll(s: string, pat: string): (r: string)
    requires |pat| > 0
    ensures |r| <= |s|
    ensures (forall j :: !OccursAt(s, pat, j)) ==> r == s
    decreases |s|
  {
    if |s| < |pat| then s
    else if s[..|pat|] == pat then
      assert OccursAt(s, pat, 0);
      RemoveAll(s[|pat|..], pat)
    else
      var r := [s[0]] + RemoveAll(s[1..], pat);
      assert (forall j :: !OccursAt(s, pat, j)) ==> forall j :: !OccursAt(s[1..], pat, j) by {
        assert [s[0]] + s[1..] == s;
        forall j | OccursAt(s[1..], pat, j) ensures OccursAt(s, pat, 1 + j) {
          OccursAfter([s[0]], s[1..], pat, j);
        }
      }
      assert [s[0]] + s[1..] == s;
      r
  }

  /**
   * Removal works left to right. When no occurrence starts in the last `|pat| - 1` positions of
   * `a` (none straddles the join), removing from `a + b` removes from each part separately.
   */
  lemma {:induction false} RemoveAllSplit(a: string, b: string, pat: string)
    requires |pat| > 0
    requires forall j :: |a| - |pat| < j < |a| ==> !OccursAt(a + b, pat, j)
    ensures RemoveAll(a + b, pat) == RemoveAll(a, pat) + RemoveAll(b, pat)
    decreases |a|
  {
    var s := a + b;
    if a == [] {
      assert s == b;
    } else if |s| < |pat| {
      assert RemoveAll(s, pat) == s;
      assert RemoveAll(a, pat) == a;
      assert RemoveAll(b, pat) == b;
    } else if s[..|pat|] == pat {
      assert OccursAt(s, pat, 0);
      var a' := a[|pat|..];
      var t := a' + b;
      assert a[..|pat|] + t == s;
      forall j | OccursAt(t, pat, j) ensures OccursAt(s, pat, |pat| + j) {
        OccursAfter(a[..|pat|], t, pat, j);
      }
      RemoveAllSplit(a', b, pat);
      assert s[|pat|..] == t;
      assert RemoveAll(s, pat) == RemoveAll(t, pat);
      assert a[..|pat|] == pat;
      assert RemoveAll(a, pat) == RemoveAll(a', pat);
    } else {
      var t := a[1..] + b;
      assert [s[0]] + t == s;
      forall j | OccursAt(t, pat, j) ensures OccursAt(s, pat, 1 + j) {
        OccursAfter([s[0]], t, pat, j);
      }
      RemoveAllSplit(a[1..], b, pat);
      assert s[1..] == t;
      assert RemoveAll(s, pat) == [s[0]] + RemoveAll(t, pat);
      assert [a[0]] + a[1..] == a;
      if |a| >= |pat| {
        assert a[..|pat|] == s[..|pat|];
        assert RemoveAll(a, pat) == [a[0]] + RemoveAll(a[1..], pat);
      } else {
        assert RemoveAll(a, pat) == a;
        assert RemoveAll(a[1..], pat) == a[1..];
      }
      Seqs.Assoc([a[0]], RemoveAll(a[1..], pat), RemoveAll(b, pat));
    }
  }

  /**
   * The first occurrence is removed: when no occurrence starts inside `a`, the pattern that
   * follows `a` disappears and removal goes on after it.
   */
  lemma RemoveAllDropsOccurrence(a: string, b: string, pat: string)
    requires |pat| > 0
    requires forall j :: 0 <= j < |a| ==> !OccursAt(a + pat + b, pat, j)
    ensures RemoveAll(a + pat + b, pat) == a + RemoveAll(b, pat)
  {
    var t := pat + b;
    assert a + pat + b == a + t;
    RemoveAllSplit(a, t, pat);
    assert RemoveAll(a + t, pat) == RemoveAll(a, pat) + RemoveAll(t, pat);
    PrefixWithoutOccurrence(a, t, pat);
    assert RemoveAll(a, pat) == a;
    RemoveAllLeadingPattern(pat, b);
    assert RemoveAll(t, pat) == RemoveAll(b, pat);
  }

  /** A prefix in which no occurrence of `a + t` starts holds no occurrence of its own. */
  lemma PrefixWithoutOccurrence(a: string, t: string, pat: string)
    requires |pat| > 0
    requires forall j :: 0 <= j < |a| ==> !OccursAt(a + t, pat, j)
    ensures forall j :: !OccursAt(a, pat, j)
  {
    forall j | OccursAt(a, pat, j) ensures OccursAt(a + t, pat, j) {
      assert (a + t)[j..j + |pat|] == a[j..j + |pat|];
    }
  }

  lemma RemoveAllLeadingPattern(pat: string, b: string)
    requires |pat| > 0
    ensures RemoveAll(pat + b, pat) == RemoveAll(b, pat)
  {
    var t := pat + b;
    assert t[..|pat|] == pat && t[|pat|..] == b;
  }

  /**
   * Removal does not rescan what it leaves: removing `k]` from `kk]]` leaves `k]`, one
   * occurrence formed by the characters on both sides of the removed one.
   */
  lemma RemoveAllCanLeaveOccurrence()
    ensures RemoveAll("00]]", "0]") == "0]"
  {
    var pat := "0]";
    assert "00]]"[..2] == "00" && "00" != pat by {
      assert "00"[1] != pat[1];
    }
    assert "00]]"[1..] == "0]]" && "0]]"[..2] == pat && "0]]"[2..] == "]";
    assert RemoveAll("]", pat) == "]";
    assert RemoveAll("0]]", pat) == "]";
    assert RemoveAll("00]]", pat) == ['0'] + RemoveAll("0]]", pat);
  }

  function DigitChar(d: nat): char
    requires d < 10
  {
    "0123456789"[d]
  }

  /** Different digits are different characters. */
  lemma DigitCharsDiffer(a: nat, b: nat)
    requires a < 10 && b < 10 && a != b
    ensures DigitChar(a) != DigitChar(b)
  {
    var digits := "0123456789";
    assert forall i, j :: 0 <= i < j < 10 ==> digits[i] < digits[j];
  }

  /** Decimal rendering of an integer, as `String(n)` gives it. */
  function IntToString(n: int): (r: string)
    ensures r != []
    decreases if n < 0 then 1 - n else n
  {
    if n < 0 then "-" + IntToString(-n)
    else if n < 10 then [DigitChar(n)]
    else IntToString(n / 10) + [DigitChar(n % 10)]
  }

  /** A decimal rendering holds only digits and the minus sign. */
  lemma {:induction false} IntToStringChars(n: int)
    ensures forall i :: 0 <= i < |IntToString(n)| ==> IntToString(n)[i] == '-' || '0' <= IntToString(n)[i] <= '9'
    decreases if n < 0 then 1 - n else n
  {
    if n < 0 {
      IntToStringChars(-n);
    } else if n >= 10 {
      IntToStringChars(n / 10);
    }
  }

  /** Appending a separator and a part without separators adds exactly that part to the split. */
  lemma {:induction false} SplitSnoc(a: string, b: string, sep: char)
    requires sep !in b
    ensures Split(a + [sep] + b, sep) == Split(a, sep) + [b]
  {
    if a == [] {
      assert a + [sep] + b == [sep] + b;
      assert ([sep] + b)[1..] == b;
      SplitNoSep(b, sep);
    } else {
      assert (a + [sep] + b)[1..] == a[1..] + [sep] + b;
      SplitSnoc(a[1..], b, sep);
    }
  }
}
