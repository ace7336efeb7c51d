/** Bytes, optional values and the few sequence operations the other modules share. */
module Basics {

  /** One octet. Bit operations of the sources are written with `/` and `%`. */
  type byte = b: int | 0 <= b < 256

  datatype Option<+T> = None | Some(value: T)

  datatype Result<+T, +E> = Ok(value: T) | Err(error: E)

  /** A control character of Unicode (category Cc). */
  predicate IsControl(c: char) {
    (c as int) < 32 || 127 <= (c as int) <= 159
  }

  /** The bytes of ASCII text. */
  function Ascii(text: string): seq<byte>
    requires forall k :: 0 <= k < |text| ==> text[k] as int < 128
  {
    seq(|text|, k requires 0 <= k < |text| => text[k] as int)
  }

  /** First position at or after `from` that holds `x`, or `|s|` when there is none. */
  function IndexFrom<T(==)>(s: seq<T>, x: T, from: nat): (i: nat)
    requires from <= |s|
    ensures from <= i <= |s|
    ensures i < |s| ==> s[i] == x
    ensures forall k :: from <= k < i ==> s[k] != x
    decreases |s| - from
  {
    if from == |s| || s[from] == x then from else IndexFrom(s, x, from + 1)
  }

  /** The properties that pin the first occurrence down. */
  lemma IndexIs<T>(s: seq<T>, x: T, from: nat, i: nat)
    requires from <= i <= |s|
    requires i < |s| ==> s[i] == x
    requires forall k :: from <= k < i ==> s[k] != x
    ensures IndexFrom(s, x, from) == i
  {
    var j := IndexFrom(s, x, from);
    assert !(j < i) && !(i < j);
  }

  lemma IndexInPrefix<T>(s: seq<T>, n: nat, x: T, from: nat)
    requires from <= n <= |s|
    ensures var i := IndexFrom(s, x, from); IndexFrom(s[..n], x, from) == if i < n then i else n
  {
    hide IndexFrom;
    var i := IndexFrom(s, x, from);
    IndexIs(s[..n], x, from, if i < n then i else n);
  }

  lemma IndexInSuffix<T>(s: seq<T>, x: T, from: nat)
    requires from <= |s|
    ensures IndexFrom(s[from..], x, 0) + from == IndexFrom(s, x, from)
  {
    hide IndexFrom;
    var i := IndexFrom(s[from..], x, 0);
    assert forall k :: 0 <= k < |s| - from ==> s[from..][k] == s[from + k];
    assert forall k :: from <= k < from + i ==> s[k] == s[from..][k - from];
    IndexIs(s, x, from, from + i);
  }

  function Concat<T>(parts: seq<seq<T>>): seq<T> {
    if |parts| == 0 then [] else parts[0] + Concat(parts[1..])
  }

  lemma {:induction false} ConcatAppend<T>(xs: seq<seq<T>>, ys: seq<seq<T>>)
    ensures Concat(xs + ys) == Concat(xs) + Concat(ys)
  {
    if |xs| == 0 {
      assert xs + ys == ys;
    } else {
      assert (xs + ys)[0] == xs[0];
      assert (xs + ys)[1..] == xs[1..] + ys;
      ConcatAppend(xs[1..], ys);
    }
  }

  lemma ConcatSnoc<T>(xs: seq<seq<T>>, y: seq<T>)
    ensures Concat(xs + [y]) == Concat(xs) + y
  {
    ConcatAppend(xs, [y]);
    assert [y][1..] == [];
    assert Concat([y]) == y;
  }

  /** The pieces of `s` between occurrences of `sep`; always at least one piece. */
  function Split<T(==)>(s: seq<T>, sep: T): (parts: seq<seq<T>>)
    ensures |parts| >= 1
  {
    var i := IndexFrom(s, sep, 0);
    if i == |s| then [s] else [s[..i]] + Split(s[i + 1..], sep)
  }

  function Join<T>(parts: seq<seq<T>>, sep: T): seq<T>
    requires |parts| >= 1
  {
    if |parts| == 1 then parts[0] else parts[0] + [sep] + Join(parts[1..], sep)
  }

  /** No piece contains the separator. */
  ghost predicate Separated<T>(parts: seq<seq<T>>, sep: T) {
    forall i :: 0 <= i < |parts| ==> sep !in parts[i]
  }

  lemma JoinCons<T>(first: seq<T>, rest: seq<seq<T>>, sep: T)
    requires |rest| >= 1
    ensures Join([first] + rest, sep) == first + [sep] + Join(rest, sep)
  {
    assert ([first] + rest)[1..] == rest;
  }

  /** Splitting loses nothing, and no piece contains the separator. */
  lemma {:induction false} JoinSplit<T>(s: seq<T>, sep: T)
    ensures Join(Split(s, sep), sep) == s
    ensures Separated(Split(s, sep), sep)
  {
    hide IndexFrom, Join;
    var i := IndexFrom(s, sep, 0);
    if i == |s| {
      JoinOne(s, sep);
    } else {
      JoinSplit(s[i + 1..], sep);
      JoinCons(s[..i], Split(s[i + 1..], sep), sep);
      assert s == s[..i] + [sep] + s[i + 1..];
    }
  }

  lemma JoinOne<T>(s: seq<T>, sep: T)
    ensures Join([s], sep) == s
  {
  }

  /** Pieces without the separator come back unchanged from their join. */
  lemma {:induction false} SplitJoin<T>(parts: seq<seq<T>>, sep: T)
    requires |parts| >= 1 && Separated(parts, sep)
    ensures Split(Join(parts, sep), sep) == parts
  {
    hide IndexFrom, Join;
    var first := parts[0];
    if |parts| == 1 {
      assert parts == [first];
      JoinOne(first, sep);
      IndexIs(first, sep, 0, |first|);
    } else {
      var rest := parts[1..];
      assert parts == [first] + rest;
      assert forall i :: 0 <= i < |rest| ==> rest[i] == parts[i + 1];
      JoinCons(first, rest, sep);
      SplitJoin(rest, sep);
      SplitCons(first, sep, Join(rest, sep));
    }
  }

  lemma SplitCons<T>(first: seq<T>, sep: T, rest: seq<T>)
    requires sep !in first
    ensures Split(first + [sep] + rest, sep) == [first] + Split(rest, sep)
  {
    hide IndexFrom;
    var s := first + [sep] + rest;
    IndexIs(s, sep, 0, |first|);
    assert s[..|first|] == first && s[|first| + 1..] == rest;
  }

  /** Joined pieces contain the pieces' elements and the separator. */
  lemma {:induction false} JoinChars<T>(parts: seq<seq<T>>, sep: T, c: T)
    requires |parts| >= 1 && c in Join(parts, sep)
    ensures c == sep || exists i :: 0 <= i < |parts| && c in parts[i]
  {
    if |parts| > 1 {
      var rest := Join(parts[1..], sep);
      if c in rest {
        JoinChars(parts[1..], sep, c);
        if c != sep {
          var i :| 0 <= i < |parts[1..]| && c in parts[1..][i];
          assert c in parts[i + 1];
        }
      }
    } else {
      assert c in parts[0];
    }
  }

  lemma {:induction false} PartChars<T>(parts: seq<seq<T>>, sep: T, i: nat, c: T)
    requires i < |parts| && c in parts[i]
    ensures c in Join(parts, sep)
  {
    if i > 0 {
      PartChars(parts[1..], sep, i - 1, c);
    }
  }

  lemma SliceOfDrop<T>(s: seq<T>, from: nat, a: nat, b: nat)
    requires from <= a <= b <= |s|
    ensures s[from..][a - from..b - from] == s[a..b]
  {
  }

  /** `sub` consists of the elements of `s` at the increasing positions `at`. */
  ghost predicate Embeds<T>(sub: seq<T>, s: seq<T>, at: seq<nat>) {
    && |at| == |sub|
    && (forall k :: 0 <= k < |at| ==> at[k] < |s| && s[at[k]] == sub[k])
    && forall j, k :: 0 <= j < k < |at| ==> at[j] < at[k]
  }

  /** `sub` is obtained from `s` by deleting elements. */
  ghost predicate IsSubsequence<T>(sub: seq<T>, s: seq<T>) {
    exists at :: Embeds(sub, s, at)
  }

  /** Appending anything that ends with `x` lets a subsequence grow by `x`. */
  lemma SubsequenceGrows<T>(sub: seq<T>, s: seq<T>, more: seq<T>, x: T)
    requires IsSubsequence(sub, s) && |more| > 0 && more[|more| - 1] == x
    ensures IsSubsequence(sub + [x], s + more)
  {
    var at: seq<nat> :| Embeds(sub, s, at);
    var next: nat := |s| + |more| - 1;
    assert Embeds(sub + [x], s + more, at + [next]);
  }
}
