/** Line-oriented text: joining lines with LF, splitting on a separator,
    the way `format!`/`push_str` build a card and `str::split` reads it. */
module Lines {
  import opened Common

  /** Each line followed by one LF. */
  function JoinLines(ls: seq<string>): (r: string)
    ensures |r| >= |ls|
  {
    if ls == [] then [] else ls[0] + "\n" + JoinLines(ls[1..])
  }

  /** Splits `s` at the first `sep`: the part before and the part after. */
  function SplitAt(s: string, sep: char): (r: Option<(string, string)>)
    ensures r.None? <==> sep !in s
    ensures r.Some? ==> s == r.value.0 + [sep] + r.value.1 && sep !in r.value.0
    decreases |s|
  {
    if s == [] then None
    else if s[0] == sep then Some(([], s[1..]))
    else
      match SplitAt(s[1..], sep)
      case None => None
      case Some((a, b)) => Some(([s[0]] + a, b))
  }

  /** `s.split('\n')` collected: the pieces between LFs, at least one. */
  function SplitLines(s: string): (r: seq<string>)
    ensures |r| >= 1
    decreases |s|
  {
    match SplitAt(s, '\n')
    case None => [s]
    case Some((a, b)) => [a] + SplitLines(b)
  }

  /** The first separator splits `a + [sep] + b` back into `a` and `b`
      when `a` holds no separator. */
  lemma {:induction false} SplitAtUnique(a: string, sep: char, b: string)
    requires sep !in a
    ensures SplitAt(a + [sep] + b, sep) == Some((a, b))
  {
    if a != [] {
      assert (a + [sep] + b)[1..] == a[1..] + [sep] + b;
      SplitAtUnique(a[1..], sep, b);
      assert [a[0]] + a[1..] == a;
    }
  }

  /** A first line without LF splits off as the first piece. */
  lemma SplitLinesCons(l: string, t: string)
    requires '\n' !in l
    ensures SplitLines(l + "\n" + t) == [l] + SplitLines(t)
  {
    SplitAtUnique(l, '\n', t);
  }

  /** Splitting undoes joining, when no line holds an LF. */
  lemma {:induction false} SplitJoin(ls: seq<string>, last: string)
    requires forall i :: 0 <= i < |ls| ==> '\n' !in ls[i]
    requires '\n' !in last
    ensures SplitLines(JoinLines(ls) + last) == ls + [last]
  {
    if ls == [] {
      assert JoinLines(ls) + last == last;
    } else {
      var rest := ls[1..];
      var tail := JoinLines(rest) + last;
      assert JoinLines(ls) + last == ls[0] + "\n" + tail;
      SplitLinesCons(ls[0], tail);
      assert forall i :: 0 <= i < |rest| ==> rest[i] == ls[i + 1];
      SplitJoin(rest, last);
      assert ls + [last] == [ls[0]] + (rest + [last]);
    }
  }

  /** Joining one more line appends it and its LF. */
  lemma {:induction false} JoinLinesSnoc(ls: seq<string>, l: string)
    ensures JoinLines(ls + [l]) == JoinLines(ls) + l + "\n"
  {
    if ls == [] {
      assert ls + [l] == [l];
    } else {
      assert (ls + [l])[1..] == ls[1..] + [l];
      JoinLinesSnoc(ls[1..], l);
    }
  }

  /** Joining distributes over concatenation. */
  lemma {:induction false} JoinLinesAppend(xs: seq<string>, ys: seq<string>)
    ensures JoinLines(xs + ys) == JoinLines(xs) + JoinLines(ys)
  {
    if xs == [] {
      assert xs + ys == ys;
    } else {
      assert (xs + ys)[1..] == xs[1..] + ys;
      JoinLinesAppend(xs[1..], ys);
    }
  }

  /** How many times `c` occurs in `s`. */
  function Count(c: char, s: string): nat {
    if s == [] then 0 else (if s[0] == c then 1 else 0) + Count(c, s[1..])
  }

  lemma {:induction false} CountAppend(c: char, a: string, b: string)
    ensures Count(c, a + b) == Count(c, a) + Count(c, b)
  {
    if a == [] {
      assert a + b == b;
    } else {
      assert (a + b)[1..] == a[1..] + b;
      CountAppend(c, a[1..], b);
    }
  }

  lemma {:induction false} CountZero(c: char, s: string)
    ensures Count(c, s) == 0 <==> c !in s
  {
    if s != [] {
      CountZero(c, s[1..]);
      assert s == [s[0]] + s[1..];
    }
  }

  /** Splitting on LF gives one more piece than there are LFs. */
  lemma {:induction false} SplitLinesCount(s: string)
    ensures |SplitLines(s)| == Count('\n', s) + 1
    decreases |s|
  {
    match SplitAt(s, '\n')
    case None =>
      CountZero('\n', s);
    case Some((a, b)) =>
      SplitLinesCount(b);
      CountAppend('\n', a + ['\n'], b);
      CountAppend('\n', a, ['\n']);
      CountZero('\n', a);
  }

  /** Joined lines hold at least one LF per line, and more when a line
      itself holds one. */
  lemma {:induction false} JoinLinesCount(ls: seq<string>)
    ensures Count('\n', JoinLines(ls)) >= |ls|
    ensures (exists i :: 0 <= i < |ls| && '\n' in ls[i]) ==> Count('\n', JoinLines(ls)) > |ls|
  {
    if ls != [] {
      JoinLinesCount(ls[1..]);
      CountAppend('\n', ls[0] + "\n", JoinLines(ls[1..]));
      CountAppend('\n', ls[0], "\n");
      CountZero('\n', ls[0]);
      if exists i :: 0 <= i < |ls| && '\n' in ls[i] {
        var i :| 0 <= i < |ls| && '\n' in ls[i];
        if i > 0 {
          assert ls[1..][i - 1] == ls[i];
        }
      }
    }
  }
}
