/** The newline translation of a file read in text mode. */
module Newlines {
  import opened Text
  import opened CardRow

  /** What reading a file back in text mode does to its text: Python's universal-newline
      translation turns each "\r\n" and each lone "\r" into "\n". */
  function ReadNewlines(s: string): string {
    if |s| == 0 then ""
    else if s[0] == '\r' then
      if |s| >= 2 && s[1] == '\n' then "\n" + ReadNewlines(s[2..]) else "\n" + ReadNewlines(s[1..])
    else [s[0]] + ReadNewlines(s[1..])
  }

  /** No carriage return survives the read-back. */
  lemma {:induction false} ReadNewlinesNoCr(s: string)
    ensures '\r' !in ReadNewlines(s)
  {
    if |s| > 0 {
      if s[0] == '\r' && |s| >= 2 && s[1] == '\n' {
        ReadNewlinesNoCr(s[2..]);
      } else {
        ReadNewlinesNoCr(s[1..]);
      }
    }
  }

  /** Text without carriage returns reads back as written. */
  lemma {:induction false} ReadNewlinesPlain(s: string)
    requires '\r' !in s
    ensures ReadNewlines(s) == s
  {
    if |s| > 0 {
      assert s == [s[0]] + s[1..];
      assert '\r' !in s[1..];
      ReadNewlinesPlain(s[1..]);
    }
  }

  /** Text with a carriage return changes on the way back. */
  lemma ReadNewlinesChanges(s: string)
    requires '\r' in s
    ensures ReadNewlines(s) != s
  {
    ReadNewlinesNoCr(s);
  }

  /** Text without carriage returns passes through unchanged in front of the rest. */
  lemma {:induction false} ReadNewlinesPrefix(a: string, rest: string)
    requires '\r' !in a
    ensures ReadNewlines(a + rest) == a + ReadNewlines(rest)
  {
    if |a| == 0 {
      assert a + rest == rest;
    } else {
      assert a + rest == [a[0]] + (a[1..] + rest);
      KeptStep(a[0], a[1..] + rest);
      ReadNewlinesPrefix(a[1..], rest);
    }
  }

  /** A "\r\n" line end reads back as "\n". */
  lemma CrLfStep(rest: string)
    ensures ReadNewlines("\r\n" + rest) == "\n" + ReadNewlines(rest)
  {
    assert ("\r\n" + rest)[2..] == rest;
  }

  /** A lone "\r" reads back as "\n". */
  lemma CrStep(rest: string)
    requires |rest| == 0 || rest[0] != '\n'
    ensures ReadNewlines("\r" + rest) == "\n" + ReadNewlines(rest)
  {
    assert ("\r" + rest)[1..] == rest;
  }

  /** Any other character is kept. */
  lemma KeptStep(c: char, rest: string)
    requires c != '\r'
    ensures ReadNewlines([c] + rest) == [c] + ReadNewlines(rest)
  {
    assert ([c] + rest)[1..] == rest;
  }

  /** Three lines ended by "\r\n" read back as the same lines ended by "\n". */
  lemma CrLfLines(p: string, m: string, q: string)
    requires '\r' !in p && '\r' !in m && '\r' !in q
    ensures ReadNewlines(p + "\r\n" + m + "\r\n" + q) == p + "\n" + m + "\n" + q
  {
    var rest := "\r\n" + q;
    var tail := m + rest;
    calc {
      ReadNewlines(p + "\r\n" + m + "\r\n" + q);
      { assert p + "\r\n" + m + "\r\n" + q == p + ("\r\n" + tail); }
      ReadNewlines(p + ("\r\n" + tail));
      { ReadNewlinesPrefix(p, "\r\n" + tail); }
      p + ReadNewlines("\r\n" + tail);
      { CrLfStep(tail); }
      p + ("\n" + ReadNewlines(m + rest));
      { ReadNewlinesPrefix(m, rest); }
      p + ("\n" + (m + ReadNewlines(rest)));
      { CrLfStep(q); ReadNewlinesPlain(q); }
      p + ("\n" + (m + ("\n" + q)));
      p + "\n" + m + "\n" + q;
    }
  }

  /** A join of pieces and a separator without carriage returns has none. */
  lemma {:induction false} JoinNoCr(parts: seq<string>, sep: string)
    requires forall i :: 0 <= i < |parts| ==> '\r' !in parts[i]
    requires '\r' !in sep
    ensures '\r' !in Join(parts, sep)
  {
    if |parts| > 1 {
      assert forall i :: 0 <= i < |parts[1..]| ==> parts[1..][i] == parts[i + 1];
      JoinNoCr(parts[1..], sep);
    }
  }

  /** A comment whose lines around a "---" line end in "\r\n" reads back holding the
      comment separator, where the importer will split it. */
  lemma CrLfSeparatorReadBack(p: string, q: string)
    requires '\r' !in p && '\r' !in q
    ensures ReadNewlines(p + "\r\n---\r\n" + q) == p + CommentSeparator + q
    ensures OccursAt(ReadNewlines(p + "\r\n---\r\n" + q), CommentSeparator, |p|)
  {
    CrLfSeparatorText(p, q);
    SeparatorAt(p, q);
  }

  lemma CrLfSeparatorText(p: string, q: string)
    requires '\r' !in p && '\r' !in q
    ensures ReadNewlines(p + "\r\n---\r\n" + q) == p + CommentSeparator + q
  {
    CrLfDashes(p, q);
    assert p + "\n" + "---" + "\n" + q == p + CommentSeparator + q by {
      assert "\n" + "---" + "\n" == CommentSeparator;
    }
  }

  lemma CrLfDashes(p: string, q: string)
    requires '\r' !in p && '\r' !in q
    ensures ReadNewlines(p + "\r\n---\r\n" + q) == p + "\n" + "---" + "\n" + q
  {
    CrLfDashLines(p, q);
    assert p + "\r\n---\r\n" + q == p + "\r\n" + "---" + "\r\n" + q by {
      assert "\r\n" + "---" + "\r\n" == "\r\n---\r\n";
    }
  }

  lemma CrLfDashLines(p: string, q: string)
    requires '\r' !in p && '\r' !in q
    ensures ReadNewlines(p + "\r\n" + "---" + "\r\n" + q) == p + "\n" + "---" + "\n" + q
  {
    assert '\r' !in "---" by {
      assert "---" == ['-', '-', '-'];
    }
    CrLfLines(p, "---", q);
  }

  /** The separator between two texts occurs right after the first. */
  lemma SeparatorAt(p: string, q: string)
    ensures OccursAt(p + CommentSeparator + q, CommentSeparator, |p|)
  {
    var t := p + CommentSeparator + q;
    assert t[|p|..|p| + |CommentSeparator|] == CommentSeparator;
  }
}
