/** Order-preserving list comprehensions over sequences: `[f(x) for x in s]`,
    `[x for x in s if p(x)]` and "the first element that yields a value". */
module Seqs {
  import opened Wrappers

  /** `[f(x) for x in s]` */
  function Map<A, B>(f: A -> B, s: seq<A>): (r: seq<B>)
    ensures |r| == |s|
    ensures forall i :: 0 <= i < |s| ==> r[i] == f(s[i])
  {
    if |s| == 0 then [] else [f(s[0])] + Map(f, s[1..])
  }

  lemma MapTail<A, B>(f: A -> B, s: seq<A>)
    requires |s| > 0
    ensures Map(f, s)[1..] == Map(f, s[1..])
  {
  }

  lemma HeadTail<A>(s: seq<A>)
    requires |s| > 0
    ensures [s[0]] + s[1..] == s
  {
  }

  lemma AllTail<A>(p: A -> bool, s: seq<A>)
    requires |s| > 0 && forall i :: 0 <= i < |s| ==> p(s[i])
    ensures forall i :: 0 <= i < |s[1..]| ==> p(s[1..][i])
  {
    assert forall i :: 0 <= i < |s[1..]| ==> s[1..][i] == s[i + 1];
  }

  lemma AllCons<A>(p: A -> bool, x: A, s: seq<A>)
    requires p(x) && forall i :: 0 <= i < |s| ==> p(s[i])
    ensures forall i :: 0 <= i < |[x] + s| ==> p(([x] + s)[i])
  {
  }

  lemma AppendFirst<A>(s: seq<A>, t: seq<A>)
    requires |t| > 0
    ensures (s + [t[0]]) + t[1..] == s + t
  {
    assert t == [t[0]] + t[1..];
  }

  lemma ConsTail<A>(x: A, s: seq<A>)
    ensures ([x] + s)[1..] == s
  {
  }

  lemma Assoc<A>(a: seq<A>, b: seq<A>, c: seq<A>)
    ensures a + b + c == a + (b + c)
  {
  }

  lemma Regroup<A>(a: seq<A>, b: seq<A>, c: seq<A>, d: seq<A>)
    ensures a + (b + c + d) == a + b + (c + d)
  {
  }

  lemma SnocInit<A>(s: seq<A>, x: A)
    ensures (s + [x])[..|s|] == s && (s + [x])[|s|] == x
  {
  }

  lemma PrefixAt<A>(s: seq<A>, m: int, i: int)
    requires 0 <= i < m <= |s|
    ensures s[..m][i] == s[i]
  {
  }

  lemma InitLast<A>(s: seq<A>)
    requires |s| > 0
    ensures s[..|s| - 1] + [s[|s| - 1]] == s
  {
  }

  /** Slicing a suffix is slicing the whole. */
  lemma SuffixSlices<A>(s: seq<A>, i: int, n: int)
    requires 0 <= i <= |s| && 0 <= n <= |s| - i
    ensures s[i..][..n] == s[i..i + n] && s[i..][n..] == s[i + n..]
  {
  }

  /** `[x for x in s if p(x)]` */
  function Filter<A>(p: A -> bool, s: seq<A>): (r: seq<A>)
    ensures |r| <= |s|
    ensures forall i :: 0 <= i < |r| ==> r[i] in s && p(r[i])
    ensures forall i :: 0 <= i < |s| && p(s[i]) ==> s[i] in r
  {
    if |s| == 0 then []
    else if p(s[0]) then [s[0]] + Filter(p, s[1..])
    else Filter(p, s[1..])
  }

  /** Filtering a concatenation filters each half and keeps them in order. */
  lemma {:induction false} FilterConcat<A>(p: A -> bool, s: seq<A>, t: seq<A>)
    ensures Filter(p, s + t) == Filter(p, s) + Filter(p, t)
  {
    if |s| == 0 {
      assert s + t == t;
    } else {
      assert (s + t)[1..] == s[1..] + t;
      FilterConcat(p, s[1..], t);
    }
  }

  /** Filtering eight concatenated pieces filters each piece. */
  lemma FilterEight<A>(p: A -> bool, a: seq<A>, b: seq<A>, c: seq<A>, d: seq<A>,
                       e: seq<A>, f: seq<A>, g: seq<A>, h: seq<A>)
    ensures Filter(p, a + (b + (c + (d + (e + (f + (g + h)))))))
         == Filter(p, a) + (Filter(p, b) + (Filter(p, c) + (Filter(p, d)
          + (Filter(p, e) + (Filter(p, f) + (Filter(p, g) + Filter(p, h)))))))
  {
    FilterConcat(p, g, h);
    FilterConcat(p, f, g + h);
    FilterConcat(p, e, f + (g + h));
    FilterConcat(p, d, e + (f + (g + h)));
    FilterConcat(p, c, d + (e + (f + (g + h))));
    FilterConcat(p, b, c + (d + (e + (f + (g + h)))));
    FilterConcat(p, a, b + (c + (d + (e + (f + (g + h))))));
  }

  /** Mapping a concatenation maps each half. */
  lemma MapConcat<A, B>(f: A -> B, s: seq<A>, t: seq<A>)
    ensures Map(f, s + t) == Map(f, s) + Map(f, t)
  {
  }

  /** The value of the first element of `s` for which `f` yields one: a `for` loop that
      returns from inside its body, falling through to None. */
  function FirstSome<A, B>(f: A -> Option<B>, s: seq<A>): (r: Option<B>)
    ensures r.None? <==> forall i :: 0 <= i < |s| ==> f(s[i]).None?
    ensures r.Some? ==> exists k :: 0 <= k < |s| && f(s[k]) == r
                                 && forall j :: 0 <= j < k ==> f(s[j]).None?
  {
    if |s| == 0 then None
    else if f(s[0]).Some? then f(s[0])
    else
      var rest := FirstSome(f, s[1..]);
      assert forall i :: 1 <= i < |s| ==> s[i] == s[1..][i - 1];
      rest
  }

  lemma FirstSomeStep<A, B>(f: A -> Option<B>, s: seq<A>)
    requires |s| > 0
    ensures FirstSome(f, s) == if f(s[0]).Some? then f(s[0]) else FirstSome(f, s[1..])
  {
  }

  lemma ConcatFive<A>(a: seq<A>, b: seq<A>, c: seq<A>, d: seq<A>, e: seq<A>)
    ensures a + b + c + d + e == a + (b + (c + (d + e)))
  {
  }
}
