/** The author choices offered by the filter panel, `authorList` of src/App.tsx:20-22:
    `Array.from(new Set(articles.map(a => a.byline?.original).filter(Boolean)))`.
    The result is every distinct non-empty byline, in order of first occurrence. */
module AuthorOptions {
  import opened ArticleModel

  /** `articles.map(a => a.byline?.original).filter(Boolean)`: the present, non-empty
      bylines, in article order, duplicates kept. */
  function Bylines(xs: seq<Article>): (r: seq<string>)
    ensures |r| <= |xs|
    ensures forall x :: x in r ==> x != ""
  {
    if xs == [] then []
    else (if Truthy(Original(xs[0])) then [Original(xs[0]).value] else []) + Bylines(xs[1..])
  }

  /** The iteration order of `new Set(s)`: each element is inserted in turn, and an
      element already present is not inserted again. */
  function InsertionOrder(s: seq<string>): (r: seq<string>)
    ensures |r| <= |s|
    ensures forall x :: x in r <==> x in s
  {
    if s == [] then []
    else
      var prefix := InsertionOrder(s[..|s| - 1]);
      if s[|s| - 1] in prefix then prefix else prefix + [s[|s| - 1]]
  }

  function AuthorList(xs: seq<Article>): (r: seq<string>)
    ensures forall x :: x in r ==> x != ""
  {
    InsertionOrder(Bylines(xs))
  }

  // ---------------------------------------------------------------------------
  // Specification vocabulary

  predicate NoDuplicates(r: seq<string>)
  {
    forall i, j :: 0 <= i < j < |r| ==> r[i] != r[j]
  }

  /** Position of the first occurrence of `x` in `s`. */
  function FirstIndex(s: seq<string>, x: string): (k: nat)
    requires x in s
    ensures k < |s| && s[k] == x
    ensures forall j :: 0 <= j < k ==> s[j] != x
  {
    if s[0] == x then 0 else 1 + FirstIndex(s[1..], x)
  }

  /** `r` lists its elements in the order in which they first occur in `s`. */
  predicate InFirstOccurrenceOrder(r: seq<string>, s: seq<string>)
    requires forall x :: x in r ==> x in s
  {
    forall i, j :: 0 <= i < j < |r| ==> FirstIndex(s, r[i]) < FirstIndex(s, r[j])
  }

  /** Some article's `byline.original` is exactly `x`. */
  predicate IsBylineOf(xs: seq<Article>, x: string)
  {
    exists a :: a in xs && Original(a) == Some(x)
  }

  /** Index of the first article whose `byline.original` is `x`. */
  function FirstArticleWith(xs: seq<Article>, x: string): (k: nat)
    requires IsBylineOf(xs, x)
    ensures k < |xs| && Original(xs[k]) == Some(x)
    ensures forall j :: 0 <= j < k ==> Original(xs[j]) != Some(x)
  {
    if Original(xs[0]) == Some(x) then 0
    else
      assert IsBylineOf(xs[1..], x) by {
        var a :| a in xs && Original(a) == Some(x);
        assert a in xs[1..];
      }
      1 + FirstArticleWith(xs[1..], x)
  }

  // ---------------------------------------------------------------------------
  // Properties of the bylines

  lemma {:induction false} BylinesMembers(xs: seq<Article>)
    ensures forall x :: x in Bylines(xs) <==> x != "" && IsBylineOf(xs, x)
  {
    if xs != [] {
      BylinesMembers(xs[1..]);
      forall x ensures IsBylineOf(xs, x) <==> Original(xs[0]) == Some(x) || IsBylineOf(xs[1..], x) {
        if IsBylineOf(xs, x) {
          var a :| a in xs && Original(a) == Some(x);
          assert a == xs[0] || a in xs[1..];
        }
      }
    }
  }

  /** Relative first positions among the bylines are relative first positions among
      the articles. */
  lemma {:induction false} BylinesFirstIndex(xs: seq<Article>, x: string, y: string)
    requires x in Bylines(xs) && y in Bylines(xs)
    ensures IsBylineOf(xs, x) && IsBylineOf(xs, y)
    ensures FirstIndex(Bylines(xs), x) < FirstIndex(Bylines(xs), y) <==>
              FirstArticleWith(xs, x) < FirstArticleWith(xs, y)
  {
    BylinesMembers(xs);
    var b := Bylines(xs);
    var head := if Truthy(Original(xs[0])) then [Original(xs[0]).value] else [];
    var tail := Bylines(xs[1..]);
    assert b == head + tail;
    if head != [] && (x == head[0] || y == head[0]) {
      // The first article supplies x or y: both orders put it first.
    } else {
      assert x in tail && y in tail;
      BylinesFirstIndex(xs[1..], x, y);
      if head != [] {
        assert b[1..] == tail;
      }
      assert FirstIndex(b, x) == |head| + FirstIndex(tail, x) by { FirstIndexAfter(head, tail, x); }
      assert FirstIndex(b, y) == |head| + FirstIndex(tail, y) by { FirstIndexAfter(head, tail, y); }
    }
  }

  lemma {:induction false} FirstIndexAfter(p: seq<string>, s: seq<string>, x: string)
    requires x in s && x !in p
    ensures x in p + s && FirstIndex(p + s, x) == |p| + FirstIndex(s, x)
  {
    if p == [] {
      assert p + s == s;
    } else {
      assert (p + s)[0] == p[0] && (p + s)[1..] == p[1..] + s;
      assert x !in p[1..];
      FirstIndexAfter(p[1..], s, x);
    }
  }

  lemma {:induction false} FirstIndexBefore(s: seq<string>, t: seq<string>, x: string)
    requires x in s
    ensures x in s + t && FirstIndex(s + t, x) == FirstIndex(s, x)
  {
    if s[0] != x {
      assert (s + t)[1..] == s[1..] + t;
      FirstIndexBefore(s[1..], t, x);
    }
  }

  // ---------------------------------------------------------------------------
  // Properties of the insertion order

  lemma {:induction false} InsertionOrderCorrect(s: seq<string>)
    ensures forall x :: x in InsertionOrder(s) <==> x in s
    ensures NoDuplicates(InsertionOrder(s))
    ensures InFirstOccurrenceOrder(InsertionOrder(s), s)
  {
    if s != [] {
      var init, last := s[..|s| - 1], s[|s| - 1];
      assert s == init + [last];
      var prefix := InsertionOrder(init);
      InsertionOrderCorrect(init);
      var r := InsertionOrder(s);
      forall x | x in prefix ensures FirstIndex(s, x) == FirstIndex(init, x) {
        FirstIndexBefore(init, [last], x);
      }
      if last !in prefix {
        assert r == prefix + [last];
        assert FirstIndex(s, last) == |init| by { FirstIndexAfter(init, [last], last); }
        forall i, j | 0 <= i < j < |r| ensures FirstIndex(s, r[i]) < FirstIndex(s, r[j]) {
          if j < |prefix| {
            assert r[i] == prefix[i] && r[j] == prefix[j];
          } else {
            assert r[i] == prefix[i] && r[j] == last;
          }
        }
      }
    }
  }

  /** Two duplicate-free lists with the same elements, both in first-occurrence order
      of `s`, are the same list. */
  lemma {:induction false} OrderedListsEqual(s: seq<string>, r: seq<string>, q: seq<string>)
    requires forall x :: x in r ==> x in s
    requires forall x :: x in r <==> x in q
    requires NoDuplicates(r) && NoDuplicates(q)
    requires InFirstOccurrenceOrder(r, s) && InFirstOccurrenceOrder(q, s)
    ensures r == q
    decreases |r|
  {
    BothEmpty(r, q);
    if r != [] {
      SameFirst(s, r, q);
      SameRest(r, q);
      OrderedTail(s, r);
      OrderedTail(s, q);
      OrderedListsEqual(s, r[1..], q[1..]);
      assert r == [r[0]] + r[1..] && q == [q[0]] + q[1..];
    }
  }

  lemma BothEmpty(r: seq<string>, q: seq<string>)
    requires forall x :: x in r <==> x in q
    ensures r == [] <==> q == []
  {
    if r != [] { assert r[0] in q; }
    if q != [] { assert q[0] in r; }
  }

  /** The head of a list in first-occurrence order occurs first. */
  lemma HeadOccursFirst(s: seq<string>, r: seq<string>, x: string)
    requires r != [] && x in r
    requires forall y :: y in r ==> y in s
    requires InFirstOccurrenceOrder(r, s)
    ensures FirstIndex(s, r[0]) <= FirstIndex(s, x)
  {
    var k :| 0 <= k < |r| && r[k] == x;
    if k != 0 {
      assert FirstIndex(s, r[0]) < FirstIndex(s, r[k]);
    }
  }

  lemma SameFirst(s: seq<string>, r: seq<string>, q: seq<string>)
    requires r != [] && q != []
    requires forall x :: x in r ==> x in s
    requires forall x :: x in r <==> x in q
    requires InFirstOccurrenceOrder(r, s) && InFirstOccurrenceOrder(q, s)
    ensures r[0] == q[0]
  {
    assert q[0] in r && r[0] in q;
    HeadOccursFirst(s, r, q[0]);
    HeadOccursFirst(s, q, r[0]);
  }

  lemma SameRest(r: seq<string>, q: seq<string>)
    requires r != [] && q != [] && r[0] == q[0]
    requires forall x :: x in r <==> x in q
    requires NoDuplicates(r) && NoDuplicates(q)
    ensures forall x :: x in r[1..] <==> x in q[1..]
  {
    forall x | x in r[1..] ensures x in q[1..] {
      InTail(r, q, x);
    }
    forall x | x in q[1..] ensures x in r[1..] {
      InTail(q, r, x);
    }
  }

  lemma InTail(r: seq<string>, q: seq<string>, x: string)
    requires r != [] && q != [] && r[0] == q[0]
    requires x in r[1..] && x in q
    requires NoDuplicates(r)
    ensures x in q[1..]
  {
    var i :| 0 <= i < |r| - 1 && r[1..][i] == x;
    assert r[i + 1] == x && x != r[0];
    var j :| 0 <= j < |q| && q[j] == x;
    assert q[1..][j - 1] == x;
  }

  lemma OrderedTail(s: seq<string>, r: seq<string>)
    requires r != []
    requires forall x :: x in r ==> x in s
    requires InFirstOccurrenceOrder(r, s)
    ensures forall x :: x in r[1..] ==> x in s
    ensures NoDuplicates(r) ==> NoDuplicates(r[1..])
    ensures InFirstOccurrenceOrder(r[1..], s)
  {
    forall i, j | 0 <= i < j < |r| - 1 ensures FirstIndex(s, r[1..][i]) < FirstIndex(s, r[1..][j]) {
      assert r[1..][i] == r[i + 1] && r[1..][j] == r[j + 1];
    }
  }

  // ---------------------------------------------------------------------------
  // The author list

  /** `authorList` holds no duplicates and no empty string; it holds exactly the bylines
      some article carries; and it lists them in the order their first articles appear. */
  lemma AuthorListCorrect(xs: seq<Article>)
    ensures NoDuplicates(AuthorList(xs))
    ensures forall x :: x in AuthorList(xs) <==> x != "" && IsBylineOf(xs, x)
    ensures forall i, j :: 0 <= i < j < |AuthorList(xs)| ==>
              IsBylineOf(xs, AuthorList(xs)[i]) && IsBylineOf(xs, AuthorList(xs)[j]) &&
              FirstArticleWith(xs, AuthorList(xs)[i]) < FirstArticleWith(xs, AuthorList(xs)[j])
  {
    var b := Bylines(xs);
    var r := AuthorList(xs);
    BylinesMembers(xs);
    InsertionOrderCorrect(b);
    forall i, j | 0 <= i < j < |r|
      ensures IsBylineOf(xs, r[i]) && IsBylineOf(xs, r[j])
      ensures FirstArticleWith(xs, r[i]) < FirstArticleWith(xs, r[j])
    {
      BylinesFirstIndex(xs, r[i], r[j]);
    }
  }

  /** The properties above pin `authorList` down: any list that has them is it. */
  lemma AuthorListUnique(xs: seq<Article>, r: seq<string>)
    requires NoDuplicates(r)
    requires forall x :: x in r <==> x in Bylines(xs)
    requires InFirstOccurrenceOrder(r, Bylines(xs))
    ensures r == AuthorList(xs)
  {
    InsertionOrderCorrect(Bylines(xs));
    OrderedListsEqual(Bylines(xs), r, AuthorList(xs));
  }
}
