/** The parts of Python's `str` that the migration relies on: `strip()`, `lower()`,
    the `in` substring test, `split(sep)` and `sep.join(parts)`. */
module Text {
  import opened Wrappers
  import opened Seqs

  /** The characters for which Python's `str.isspace()` holds; `strip()` removes exactly these. */
  predicate IsSpace(c: char) {
    || c == ' ' || c == '\t' || c == '\n' || c == '\r'
    || ('\U{0B}' <= c <= '\U{0C}') || ('\U{1C}' <= c <= '\U{1F}')
    || c == '\U{85}' || c == '\U{A0}' || c == '\U{1680}'
    || ('\U{2000}' <= c <= '\U{200A}') || c == '\U{2028}' || c == '\U{2029}'
    || c == '\U{202F}' || c == '\U{205F}' || c == '\U{3000}'
  }

  /** True when `s.strip()` is empty, i.e. `s` is Python-falsy after stripping. */
  predicate AllSpace(s: string) {
    forall i :: 0 <= i < |s| ==> IsSpace(s[i])
  }

  function StripLeft(s: string): (r: string)
    ensures |r| <= |s| && r == s[|s| - |r|..]
    ensures AllSpace(s[..|s| - |r|])
    ensures r == "" || !IsSpace(r[0])
    decreases |s|
  {
    if |s| > 0 && IsSpace(s[0]) then
      var r := StripLeft(s[1..]);
      assert s[..|s| - |r|] == [s[0]] + s[1..][..|s| - 1 - |r|];
      r
    else s
  }

  function StripRight(s: string): (r: string)
    ensures |r| <= |s| && r == s[..|r|]
    ensures AllSpace(s[|r|..])
    ensures r == "" || !IsSpace(r[|r| - 1])
    decreases |s|
  {
    if |s| > 0 && IsSpace(s[|s| - 1]) then StripRight(s[..|s| - 1]) else s
  }

  /** `s.strip()`: what is left after removing leading and trailing whitespace. */
  function Strip(s: string): (r: string)
    ensures |r| <= |s|
    ensures r == "" || (!IsSpace(r[0]) && !IsSpace(r[|r| - 1]))
    ensures r == "" <==> AllSpace(s)
  {
    var l := StripLeft(s);
    assert s == s[..|s| - |l|] + l;
    StripRight(l)
  }

  /** What `strip()` removes is whitespace, and what it keeps is one contiguous slice. */
  lemma StripIsSlice(s: string)
    ensures exists i | 0 <= i <= |s| - |Strip(s)| ::
      s[i..i + |Strip(s)|] == Strip(s) && AllSpace(s[..i]) && AllSpace(s[i + |Strip(s)|..])
  {
    var l := StripLeft(s);
    var r := Strip(s);
    assert r == StripRight(l);
    SpacedSlice(s, l, r);
  }

  /** A suffix `l` of `s` behind whitespace, cut down to a prefix `r` in front of
      whitespace, is a slice of `s` with whitespace on both sides. */
  lemma SpacedSlice(s: string, l: string, r: string)
    requires |l| <= |s| && l == s[|s| - |l|..] && AllSpace(s[..|s| - |l|])
    requires |r| <= |l| && r == l[..|r|] && AllSpace(l[|r|..])
    ensures exists i | 0 <= i <= |s| - |r| :: s[i..i + |r|] == r && AllSpace(s[..i]) && AllSpace(s[i + |r|..])
  {
    var i := |s| - |l|;
    SuffixSlices(s, i, |r|);
    assert s[i..i + |r|] == r && AllSpace(s[..i]) && AllSpace(s[i + |r|..]);
  }

  /** A string without whitespace at either end is its own strip. */
  lemma StripTrimmed(s: string)
    requires s == "" || (!IsSpace(s[0]) && !IsSpace(s[|s| - 1]))
    ensures Strip(s) == s
  {
  }

  /** `strip()` is idempotent. */
  lemma StripIdempotent(s: string)
    ensures Strip(Strip(s)) == Strip(s)
  {
    StripTrimmed(Strip(s));
  }

  /** ASCII case folding of one character, the part of `str.lower()` this model covers. */
  function LowerChar(c: char): char {
    if 'A' <= c <= 'Z' then (c as int + 32) as char else c
  }

  /** `s.lower()` on the ASCII letters. */
  function Lower(s: string): (r: string)
    ensures |r| == |s|
    ensures forall i :: 0 <= i < |s| ==> r[i] == LowerChar(s[i])
  {
    if |s| == 0 then "" else [LowerChar(s[0])] + Lower(s[1..])
  }

  /** Lowering twice is lowering once, so lowered keys stay put when lowered again. */
  lemma LowerIdempotent(s: string)
    ensures Lower(Lower(s)) == Lower(s)
  {
  }

  /** A string without upper-case ASCII letters is its own lower-case form. */
  lemma LowerKeepsLowercase(s: string)
    requires forall i :: 0 <= i < |s| ==> !('A' <= s[i] <= 'Z')
    ensures Lower(s) == s
  {
  }

  /** `sub` occurs in `s` starting at index `i`. */
  predicate OccursAt(s: string, sub: string, i: int) {
    0 <= i <= |s| - |sub| && s[i..i + |sub|] == sub
  }

  /** Python's `sub in s`. */
  predicate Contains(s: string, sub: string) {
    exists i | 0 <= i <= |s| - |sub| :: OccursAt(s, sub, i)
  }

  /** An occurrence in a string without upper-case letters survives lower-casing it. */
  lemma LowercaseContains(s: string, sub: string, i: int)
    requires forall k :: 0 <= k < |s| ==> !('A' <= s[k] <= 'Z')
    requires OccursAt(s, sub, i)
    ensures Contains(Lower(s), sub)
  {
    LowerKeepsLowercase(s);
  }

  /** A one-character separator occurs exactly when the character does. */
  lemma ContainsChar(s: string, c: char)
    ensures Contains(s, [c]) <==> c in s
  {
    if c in s {
      var i :| 0 <= i < |s| && s[i] == c;
      assert OccursAt(s, [c], i);
    }
    if Contains(s, [c]) {
      var i :| 0 <= i <= |s| - 1 && OccursAt(s, [c], i);
      assert s[i] == s[i..i + 1][0];
    }
  }

  /** The first occurrence of `sub` in `s` at or after index `k`. */
  function IndexFrom(s: string, sub: string, k: nat): (r: Option<nat>)
    ensures r.Some? ==> k <= r.value && OccursAt(s, sub, r.value)
    ensures r.Some? ==> forall j :: k <= j < r.value ==> !OccursAt(s, sub, j)
    ensures r.None? ==> forall j :: k <= j ==> !OccursAt(s, sub, j)
    decreases |s| - k
  {
    if k + |sub| > |s| then None
    else if s[k..k + |sub|] == sub then Some(k)
    else IndexFrom(s, sub, k + 1)
  }

  /** `s.find(sub)`, as an option: the leftmost occurrence. */
  function IndexOf(s: string, sub: string): (r: Option<nat>)
    ensures r.Some? ==> OccursAt(s, sub, r.value)
    ensures r.Some? ==> forall j :: 0 <= j < r.value ==> !OccursAt(s, sub, j)
    ensures r.None? <==> !Contains(s, sub)
  {
    IndexFrom(s, sub, 0)
  }

  /** `sep.join(parts)`. */
  function Join(parts: seq<string>, sep: string): (r: string)
    ensures |parts| > 0 ==> |parts[0]| <= |r| && r[..|parts[0]|] == parts[0]
  {
    if |parts| == 0 then ""
    else if |parts| == 1 then parts[0]
    else parts[0] + sep + Join(parts[1..], sep)
  }

  /** An occurrence inside a prefix is an occurrence in the whole string. */
  lemma OccursInPrefix(s: string, sub: string, n: nat, j: int)
    requires n <= |s|
    requires OccursAt(s[..n], sub, j)
    ensures OccursAt(s, sub, j)
  {
    assert s[..n][j..j + |sub|] == s[j..j + |sub|];
  }

  /** `s.split(sep)` for a non-empty separator: the pieces between the non-overlapping
      occurrences of `sep`, found left to right. Joining them back gives `s`. */
  function Split(s: string, sep: string): (r: seq<string>)
    requires |sep| > 0
    ensures |r| >= 1
    ensures forall k :: 0 <= k < |r| ==> !Contains(r[k], sep)
    ensures |r| > 1 <==> Contains(s, sep)
    ensures Join(r, sep) == s
    decreases |s|
  {
    match IndexOf(s, sep)
    case None => [s]
    case Some(i) =>
      var head := s[..i];
      var rest := Split(s[i + |sep|..], sep);
      assert !Contains(head, sep) by {
        forall j | 0 <= j <= |head| - |sep| && OccursAt(head, sep, j)
          ensures false
        {
          OccursInPrefix(s, sep, i, j);
        }
      }
      assert s == head + sep + s[i + |sep|..];
      [head] + rest
  }

  /** A piece that cannot run into the separator that follows it: `sep` does not occur in
      `p` followed by all but the last character of `sep`. */
  predicate SplitsCleanly(p: string, sep: string)
    requires |sep| > 0
  {
    !Contains(p + sep[..|sep| - 1], sep)
  }

  /** Splitting a join gives the parts back when no part runs into the separator. */
  lemma {:induction false} SplitJoin(parts: seq<string>, sep: string)
    requires |sep| > 0 && |parts| >= 1
    requires forall k :: 0 <= k < |parts| ==> SplitsCleanly(parts[k], sep)
    ensures Split(Join(parts, sep), sep) == parts
  {
    var p := parts[0];
    if |parts| == 1 {
      CleanPieceHasNoSep(p, sep);
    } else {
      var tail := Join(parts[1..], sep);
      assert Join(parts, sep) == p + sep + tail;
      FirstSepAfterCleanPiece(p, sep, tail);
      AllTail((x: string) => SplitsCleanly(x, sep), parts);
      SplitJoin(parts[1..], sep);
      assert Split(p + sep + tail, sep) == [p] + parts[1..];
      HeadTail(parts);
    }
  }

  /** After a piece that splits cleanly, the first separator is the one that follows it. */
  lemma FirstSepAfterCleanPiece(p: string, sep: string, tail: string)
    requires |sep| > 0 && SplitsCleanly(p, sep)
    ensures IndexOf(p + sep + tail, sep) == Some(|p|)
    ensures (p + sep + tail)[..|p|] == p && (p + sep + tail)[|p| + |sep|..] == tail
  {
    var s := p + sep + tail;
    assert OccursAt(s, sep, |p|) by {
      assert s[|p|..|p| + |sep|] == sep;
    }
    forall j | 0 <= j < |p|
      ensures !OccursAt(s, sep, j)
    {
      if OccursAt(s, sep, j) {
        var q := p + sep[..|sep| - 1];
        assert s[..|q|] == q;
        OccursInPrefixRev(s, q, sep, j);
      }
    }
    assert s[|p| + |sep|..] == tail;
  }


  /** A piece that splits cleanly does not itself contain the separator. */
  lemma CleanPieceHasNoSep(p: string, sep: string)
    requires |sep| > 0 && SplitsCleanly(p, sep)
    ensures !Contains(p, sep)
  {
    var q := p + sep[..|sep| - 1];
    forall j | 0 <= j <= |p| - |sep|
      ensures !OccursAt(p, sep, j)
    {
      assert q[j..j + |sep|] == p[j..j + |sep|];
      assert !OccursAt(q, sep, j);
    }
  }

  /** An occurrence of `sub` that ends within a prefix `q` of `s` is an occurrence in `q`. */
  lemma OccursInPrefixRev(s: string, q: string, sub: string, j: int)
    requires |q| <= |s| && s[..|q|] == q
    requires OccursAt(s, sub, j) && j + |sub| <= |q|
    ensures OccursAt(q, sub, j)
  {
    assert q[j..j + |sub|] == s[..|q|][j..j + |sub|];
  }

  /** A piece that does not contain the first character of the separator splits cleanly. */
  lemma CleanWithoutFirstChar(p: string, sep: string)
    requires |sep| > 0 && sep[0] !in p
    ensures SplitsCleanly(p, sep)
  {
  }

  /** `[x.strip() for x in parts if x.strip()]` */
  function StrippedNonBlank(parts: seq<string>): (r: seq<string>)
    ensures |r| <= |parts|
    ensures forall i :: 0 <= i < |r| ==> r[i] != "" && Strip(r[i]) == r[i]
  {
    if |parts| == 0 then []
    else
      StripIdempotent(parts[0]);
      var rest := StrippedNonBlank(parts[1..]);
      if Strip(parts[0]) != "" then
        AllCons((p: string) => p != "" && Strip(p) == p, Strip(parts[0]), rest);
        [Strip(parts[0])] + rest
      else rest
  }

  /** Joining two non-empty lists is joining each and putting one separator between. */
  lemma {:induction false} JoinAppend(a: seq<string>, b: seq<string>, sep: string)
    requires |a| > 0 && |b| > 0
    ensures Join(a + b, sep) == Join(a, sep) + sep + Join(b, sep)
  {
    if |a| == 1 {
      assert (a + b)[1..] == b;
    } else {
      assert (a + b)[1..] == a[1..] + b;
      JoinAppend(a[1..], b, sep);
    }
  }

  /** An empty line between two groups of lines joined by newlines is a blank line. */
  lemma JoinBlankBetween(a: seq<string>, b: seq<string>)
    requires |a| > 0 && |b| > 0
    ensures Join(a + [""] + b, "\n") == Join(a, "\n") + "\n\n" + Join(b, "\n")
  {
    Assoc(a, [""], b);
    JoinAppend(a, [""] + b, "\n");
    ConsTail("", b);
    var x := Join(a, "\n");
    var y := Join(b, "\n");
    assert Join([""] + b, "\n") == "\n" + y;
    TwoNewlines(x, y);
  }

  lemma TwoNewlines(x: string, y: string)
    ensures x + "\n" + ("\n" + y) == x + "\n\n" + y
  {
    assert "\n" + ("\n" + y) == "\n\n" + y;
  }

  function Spaced(s: string): string {
    " " + s
  }

  lemma {:induction false} JoinSpaced(parts: seq<string>)
    requires |parts| > 0
    ensures Join(Map(Spaced, parts), ",") == " " + Join(parts, ", ")
  {
    if |parts| > 1 {
      JoinSpaced(parts[1..]);
      assert Map(Spaced, parts)[1..] == Map(Spaced, parts[1..]);
    }
  }

  /** A trimmed non-empty piece after one space strips back to itself. */
  lemma StripSpaced(p: string)
    requires p != "" && Strip(p) == p
    ensures Strip(Spaced(p)) == p
  {
    assert Spaced(p)[1..] == p;
    assert StripLeft(Spaced(p)) == StripLeft(p);
    assert StripLeft(p) == p;
  }

  lemma {:induction false} StrippedSpaced(parts: seq<string>)
    requires forall i :: 0 <= i < |parts| ==> parts[i] != "" && Strip(parts[i]) == parts[i]
    ensures StrippedNonBlank(Map(Spaced, parts)) == parts
  {
    if |parts| > 0 {
      TrimmedTail(parts);
      StrippedSpaced(parts[1..]);
      StrippedSpacedStep(parts);
    }
  }

  lemma TrimmedTail(parts: seq<string>)
    requires |parts| > 0
    requires forall i :: 0 <= i < |parts| ==> parts[i] != "" && Strip(parts[i]) == parts[i]
    ensures parts[0] != "" && Strip(parts[0]) == parts[0]
    ensures forall i :: 0 <= i < |parts[1..]| ==> parts[1..][i] != "" && Strip(parts[1..][i]) == parts[1..][i]
  {
    AllTail((p: string) => p != "" && Strip(p) == p, parts);
  }

  lemma StrippedSpacedStep(parts: seq<string>)
    requires |parts| > 0 && parts[0] != "" && Strip(parts[0]) == parts[0]
    requires StrippedNonBlank(Map(Spaced, parts[1..])) == parts[1..]
    ensures StrippedNonBlank(Map(Spaced, parts)) == parts
  {
    var m := Map(Spaced, parts);
    StripSpaced(parts[0]);
    MapTail(Spaced, parts);
    assert StrippedNonBlank(m) == [parts[0]] + parts[1..];
    HeadTail(parts);
  }

  /** The pieces `", ".join(items).split(',')` produces: the first item, then each
      further item behind one space. */
  function CommaPieces(items: seq<string>): seq<string>
    requires |items| > 0
  {
    [items[0]] + Map(Spaced, items[1..])
  }

  lemma {:induction false} CommaJoinPieces(items: seq<string>)
    requires |items| > 0
    ensures Join(items, ", ") == Join(CommaPieces(items), ",")
  {
    var padded := CommaPieces(items);
    var rest := items[1..];
    if |items| == 1 {
      assert padded == [items[0]];
    } else {
      var tail := Join(rest, ", ");
      assert Join(items, ", ") == items[0] + ", " + tail;
      assert Join(padded, ",") == items[0] + "," + (" " + tail) by {
        assert padded[1..] == Map(Spaced, rest);
        JoinSpaced(rest);
      }
      assert items[0] + "," + (" " + tail) == items[0] + ", " + tail;
    }
  }

  lemma {:induction false} CommaPiecesStrip(items: seq<string>)
    requires |items| > 0
    requires forall i :: 0 <= i < |items| ==> items[i] != "" && Strip(items[i]) == items[i]
    ensures StrippedNonBlank(CommaPieces(items)) == items
  {
    TrimmedTail(items);
    StrippedSpaced(items[1..]);
    CommaPiecesHead(items);
    HeadTail(items);
  }

  /** A clean first item survives the strip as the first piece. */
  lemma CommaPiecesHead(items: seq<string>)
    requires |items| > 0 && items[0] != "" && Strip(items[0]) == items[0]
    ensures StrippedNonBlank(CommaPieces(items)) == [items[0]] + StrippedNonBlank(Map(Spaced, items[1..]))
  {
    var padded := CommaPieces(items);
    assert padded[0] == items[0] && padded[1..] == Map(Spaced, items[1..]);
  }

  lemma {:induction false} CommaPiecesSplit(items: seq<string>)
    requires |items| > 0
    requires forall i :: 0 <= i < |items| ==> ',' !in items[i]
    ensures Split(Join(CommaPieces(items), ","), ",") == CommaPieces(items)
  {
    var padded := CommaPieces(items);
    forall k | 0 <= k < |padded|
      ensures SplitsCleanly(padded[k], ",")
    {
      if k > 0 {
        assert padded[k] == " " + items[k];
      }
      CleanWithoutFirstChar(padded[k], ",");
    }
    SplitJoin(padded, ",");
  }

  /** What `", ".join(items)` becomes when read back by
      `[x.strip() for x in s.split(',') if x.strip()]`: the same items, provided each is
      non-empty, has no surrounding whitespace and contains no comma. */
  lemma {:induction false} CommaJoinReadBack(items: seq<string>)
    requires |items| > 0
    requires forall i :: 0 <= i < |items| ==> items[i] != "" && Strip(items[i]) == items[i] && ',' !in items[i]
    ensures StrippedNonBlank(Split(Join(items, ", "), ",")) == items
  {
    CommaJoinPieces(items);
    CommaPiecesSplit(items);
    CommaPiecesStrip(items);
  }

  /** The longest prefix of `s` that does not contain `c`. */
  function TakeUntil(s: string, c: char): (r: string)
    ensures |r| <= |s| && r == s[..|r|] && c !in r
    ensures |r| < |s| ==> s[|r|] == c
  {
    if |s| == 0 then ""
    else if s[0] == c then ""
    else
      var rest := TakeUntil(s[1..], c);
      assert ([s[0]] + rest) == s[..|rest| + 1];
      [s[0]] + rest
  }

  /** A prefix that runs up to an occurrence of `c` (or to the end) does not change what
      `TakeUntil` keeps, as long as it is not shorter than that. */
  lemma {:induction false} TakeUntilPrefix(s: string, c: char, n: nat)
    requires |TakeUntil(s, c)| <= n <= |s|
    ensures TakeUntil(s[..n], c) == TakeUntil(s, c)
  {
    if |s| > 0 && s[0] != c {
      assert s[..n][1..] == s[1..][..n - 1];
      TakeUntilPrefix(s[1..], c, n - 1);
    }
  }

  /** The first piece of a split: everything before the leftmost separator. */
  lemma SplitHead(s: string, sep: string)
    requires |sep| > 0
    ensures Split(s, sep)[0] == (match IndexOf(s, sep) case None => s case Some(i) => s[..i])
  {
  }

  /** The second piece of a split is the first piece of what follows the leftmost
      separator. */
  lemma SplitSecond(s: string, sep: string)
    requires |sep| > 0 && Contains(s, sep)
    ensures IndexOf(s, sep).value + |sep| <= |s|
    ensures Split(s, sep)[1] == Split(s[IndexOf(s, sep).value + |sep|..], sep)[0]
  {
  }

  /** Splitting on a one-character separator, the first piece is the text before the first
      occurrence of that character. */
  lemma SplitCharHead(s: string, c: char)
    ensures Split(s, [c])[0] == TakeUntil(s, c)
  {
    SplitHead(s, [c]);
    var t := TakeUntil(s, c);
    match IndexOf(s, [c])
    case None =>
      ContainsChar(s, c);
      assert |t| == |s|;
    case Some(i) =>
      assert s[i] == c by { assert s[i..i + 1] == [c]; }
      if |t| < i {
        assert OccursAt(s, [c], |t|) by { assert s[|t|..|t| + 1] == [s[|t|]]; }
      }
  }

  /** `strip()` only removes characters, so a character absent before is absent after. */
  lemma StripKeepsOut(s: string, c: char)
    requires c !in s
    ensures c !in Strip(s)
  {
    var l := StripLeft(s);
    var r := StripRight(l);
    forall j | 0 <= j < |r| ensures r[j] != c {
      assert r[j] == l[j] == s[|s| - |l| + j];
    }
  }
}
