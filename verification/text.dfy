/** Python's `str.split(sep)` for a one-character separator, its inverse
    `sep.join(parts)`, and the facts about them the endpoint parser relies on. */
module Text {

  /** `s.split(c)`: the maximal runs between occurrences of `c`; always at
      least one (possibly empty) part. */
  function Split(s: string, c: char): (parts: seq<string>)
    ensures |parts| >= 1
    ensures forall i :: 0 <= i < |parts| ==> c !in parts[i]
  {
    if |s| == 0 then [""]
    else
      var rest := Split(s[1..], c);
      if s[0] == c then [""] + rest
      else [[s[0]] + rest[0]] + rest[1..]
  }

  /** `c.join(parts)`. */
  function Join(parts: seq<string>, c: char): string
    requires |parts| >= 1
  {
    if |parts| == 1 then parts[0]
    else parts[0] + [c] + Join(parts[1..], c)
  }

  /** Splitting loses nothing: joining the parts rebuilds the string. */
  lemma {:induction false} JoinSplit(s: string, c: char)
    ensures Join(Split(s, c), c) == s
  {
    if |s| > 0 {
      var rest := Split(s[1..], c);
      JoinSplit(s[1..], c);
      if s[0] == c {
        assert Split(s, c)[1..] == rest;
      } else {
        var parts := Split(s, c);
        assert parts[0] == [s[0]] + rest[0];
        if |rest| > 1 {
          assert parts[1..] == rest[1..];
          assert Join(rest, c) == rest[0] + [c] + Join(rest[1..], c);
        }
        assert s == [s[0]] + s[1..];
      }
    }
  }

  /** A string free of the separator splits into itself alone. */
  lemma {:induction false} SplitWithout(s: string, c: char)
    requires c !in s
    ensures Split(s, c) == [s]
  {
    if |s| > 0 {
      assert c !in s[1..];
      SplitWithout(s[1..], c);
      assert [s[0]] + s[1..] == s;
    }
  }

  /** Appending text to a joined string only lengthens the last part. */
  lemma {:induction false} JoinAppend(parts: seq<string>, c: char, t: string)
    requires |parts| >= 1
    ensures Join(parts, c) + t == Join(parts[..|parts| - 1] + [parts[|parts| - 1] + t], c)
    decreases |parts|
  {
    var q := parts[..|parts| - 1] + [parts[|parts| - 1] + t];
    if |parts| > 1 {
      JoinAppend(parts[1..], c, t);
      assert q[0] == parts[0];
      assert q[1..] == parts[1..][..|parts[1..]| - 1] + [parts[1..][|parts[1..]| - 1] + t];
    }
  }

  /** Appending separator-free text only lengthens the last part. */
  lemma SplitAppend(a: string, b: string, c: char)
    requires c !in b
    ensures var pa := Split(a, c);
      Split(a + b, c) == pa[..|pa| - 1] + [pa[|pa| - 1] + b]
  {
    var pa := Split(a, c);
    var q := pa[..|pa| - 1] + [pa[|pa| - 1] + b];
    JoinSplit(a, c);
    JoinAppend(pa, c, b);
    forall i | 0 <= i < |q| ensures c !in q[i] {
      if i < |q| - 1 {
        assert q[i] == pa[i];
      }
    }
    SplitJoin(q, c);
  }

  /** A separator between two strings splits them apart. */
  lemma {:induction false} SplitAround(a: string, b: string, c: char)
    ensures Split(a + [c] + b, c) == Split(a, c) + Split(b, c)
  {
    if |a| == 0 {
      assert a + [c] + b == [c] + b;
      assert ([c] + b)[1..] == b;
    } else {
      assert (a + [c] + b)[1..] == a[1..] + [c] + b;
      SplitAround(a[1..], b, c);
    }
  }

  /** Splitting undoes joining when no part contains the separator. */
  lemma {:induction false} SplitJoin(parts: seq<string>, c: char)
    requires |parts| >= 1
    requires forall i :: 0 <= i < |parts| ==> c !in parts[i]
    ensures Split(Join(parts, c), c) == parts
    decreases |parts|
  {
    SplitWithout(parts[0], c);
    if |parts| > 1 {
      SplitJoin(parts[1..], c);
      SplitAround(parts[0], Join(parts[1..], c), c);
      assert parts == [parts[0]] + parts[1..];
    }
  }

  predicate EndsWith(s: string, suffix: string) {
    |suffix| <= |s| && s[|s| - |suffix|..] == suffix
  }
}
