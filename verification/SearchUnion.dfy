/**
 The search query sorts and limits each of its two branches before the union and sorts
 and limits the union again. A query may order rows of equal time as it likes, so each
 step is a relation between the rows it sees and the pages it may return.
 */
module SearchUnion {
  import opened Wrappers
  import opened Sorting

  datatype Kind = Thread | Comment

  datatype Row = Row(kind: Kind, proposalId: string, title: string, body: string, createdAt: int)

  /** The page size, for both branches and for the union. */
  const SEARCH_LIMIT: nat := 50

  function Min(a: nat, b: nat): nat
  {
    if a <= b then a else b
  }

  predicate NewestFirst(rows: seq<Row>)
  {
    forall i, j :: 0 <= i < j < |rows| ==> rows[i].createdAt >= rows[j].createdAt
  }

  /** No row of `rest` is newer than a row of `page`. */
  ghost predicate NoneNewer(rest: multiset<Row>, page: multiset<Row>)
  {
    forall r: Row, p: Row :: r in rest && p in page ==> r.createdAt <= p.createdAt
  }

  /** `page` is a possible result of ordering `rows` by `created_at` descending and keeping `k`. */
  ghost predicate IsPage(rows: multiset<Row>, k: nat, page: seq<Row>)
  {
    && |page| == Min(k, |rows|)
    && multiset(page) <= rows
    && NewestFirst(page)
    && NoneNewer(rows - multiset(page), multiset(page))
  }

  /** A possible result of the search: a page of the union of a page of each branch. */
  ghost predicate IsSearchResult(threads: multiset<Row>, comments: multiset<Row>, k: nat, result: seq<Row>)
  {
    exists a, b :: IsPage(threads, k, a) && IsPage(comments, k, b) && IsPage(multiset(a) + multiset(b), k, result)
  }

  lemma SubsetOfSameSize(m: multiset<Row>, n: multiset<Row>)
    requires m <= n && |m| >= |n|
    ensures m == n
  {
    assert n == m + (n - m);
    assert |n - m| == 0;
  }

  // ----- limiting the branches first is sound

  /** A row left out of a full branch is not newer than anything in the result. */
  lemma LeftOutOfBranch(rows: multiset<Row>, page: seq<Row>, others: multiset<Row>, k: nat, result: seq<Row>, r: Row, p: Row)
    requires IsPage(rows, k, page) && IsPage(multiset(page) + others, k, result)
    requires r in rows - multiset(page) && p in multiset(result)
    ensures r.createdAt <= p.createdAt
  {
    var kept, out := multiset(page), multiset(result);
    assert |page| == k by {
      if |page| < k {
        assert |page| == |rows|;
        SubsetOfSameSize(kept, rows);
      }
    }
    assert |kept| == |page| && |out| == |result|;
    if x :| x in kept && kept[x] > out[x] {
      assert x in (kept + others) - out;
    } else {
      assert kept <= out;
      SubsetOfSameSize(kept, out);
      assert p in kept;
    }
  }

  lemma PushdownIsSound(threads: multiset<Row>, comments: multiset<Row>, a: seq<Row>, b: seq<Row>, k: nat, result: seq<Row>)
    requires IsPage(threads, k, a) && IsPage(comments, k, b) && IsPage(multiset(a) + multiset(b), k, result)
    ensures IsPage(threads + comments, k, result)
  {
    var rows, limited, out := threads + comments, multiset(a) + multiset(b), multiset(result);
    assert |limited| == |a| + |b|;
    forall r: Row, p: Row | r in rows - out && p in out ensures r.createdAt <= p.createdAt {
      if r in limited - out {
      } else if r in threads - multiset(a) {
        LeftOutOfBranch(threads, a, multiset(b), k, result, r, p);
      } else {
        assert r in comments - multiset(b);
        assert limited == multiset(b) + multiset(a);
        LeftOutOfBranch(comments, b, multiset(a), k, result, r, p);
      }
    }
  }

  // ----- sorting

  const AGE: Row -> int := (r: Row) => -r.createdAt

  /** All rows, newest first. */
  function SortRows(rows: seq<Row>): (sorted: seq<Row>)
    ensures |sorted| == |rows|
  {
    SortBy(rows, AGE)
  }

  lemma SortRowsSorts(rows: seq<Row>)
    ensures NewestFirst(SortRows(rows)) && multiset(SortRows(rows)) == multiset(rows)
  {
    hide SortBy;
    SortBySorts(rows, AGE);
    assert forall r: Row :: AGE(r) == -r.createdAt;
  }

  /** Sorted rows cut in two: the head is sorted, and the tail has nothing newer. */
  lemma CutSorted(head: seq<Row>, tail: seq<Row>)
    requires NewestFirst(head + tail)
    ensures NewestFirst(head) && NoneNewer(multiset(tail), multiset(head))
  {
    var sorted := head + tail;
    forall i, j | 0 <= i < j < |head| ensures head[i].createdAt >= head[j].createdAt {
      assert sorted[i] == head[i] && sorted[j] == head[j];
    }
    forall r: Row, p: Row | r in multiset(tail) && p in multiset(head) ensures r.createdAt <= p.createdAt {
      assert r in tail && p in head;
      var i :| 0 <= i < |head| && head[i] == p;
      var j :| 0 <= j < |tail| && tail[j] == r;
      assert sorted[i] == p && sorted[|head| + j] == r;
    }
  }

  /** The first rows of a complete sort are a page. */
  lemma PrefixOfSortIsPage(sorted: seq<Row>, k: nat)
    requires NewestFirst(sorted)
    ensures IsPage(multiset(sorted), k, sorted[..Min(k, |sorted|)])
  {
    hide NewestFirst, NoneNewer;
    var n := Min(k, |sorted|);
    var page, rest := sorted[..n], sorted[n..];
    assert sorted == page + rest;
    CutSorted(page, rest);
    assert multiset(sorted) - multiset(page) == multiset(rest);
    assert |multiset(sorted)| == |sorted|;
  }

  lemma {:induction false} SomeOrder(rows: multiset<Row>) returns (s: seq<Row>)
    ensures multiset(s) == rows
    decreases |rows|
  {
    if rows == multiset{} {
      s := [];
    } else {
      var r :| r in rows;
      s := SomeOrder(rows - multiset{r});
      s := s + [r];
    }
  }

  lemma SomePage(rows: multiset<Row>, k: nat) returns (page: seq<Row>)
    ensures IsPage(rows, k, page)
  {
    var s := SomeOrder(rows);
    SortRowsSorts(s);
    assert |SortRows(s)| == |multiset(SortRows(s))|;
    PrefixOfSortIsPage(SortRows(s), k);
    page := SortRows(s)[..Min(k, |rows|)];
  }

  // ----- limiting the branches first excludes nothing

  /** A page of a branch that holds all of `wanted`, rows no left-out row is newer than. */
  lemma PageWith(rows: multiset<Row>, k: nat, wanted: multiset<Row>) returns (page: seq<Row>)
    requires wanted <= rows && |wanted| <= k
    requires NoneNewer(rows - wanted, wanted)
    ensures IsPage(rows, k, page) && wanted <= multiset(page)
  {
    hide SortRows, NewestFirst, NoneNewer;
    var rest := rows - wanted;
    assert rows == wanted + rest;
    var filler := SomePage(rest, Min(k, |rows|) - |wanted|);
    assert |multiset(filler)| == |filler|;
    var both := SomeOrder(wanted + multiset(filler));
    SortRowsSorts(both);
    page := SortRows(both);
    assert |page| == |multiset(page)|;
    FilledUp(rest, wanted, multiset(filler));
    assert rows - multiset(page) == rest - multiset(filler);
  }

  lemma FilledUp(rest: multiset<Row>, wanted: multiset<Row>, filler: multiset<Row>)
    requires NoneNewer(rest, wanted) && NoneNewer(rest - filler, filler)
    ensures NoneNewer(rest - filler, wanted + filler)
  {
  }

  /** What holds of all left-out rows holds of those left out of a part. */
  lemma FewerRows(rows: multiset<Row>, page: multiset<Row>, part: multiset<Row>, wanted: multiset<Row>)
    requires NoneNewer(rows - page, page)
    requires part - wanted <= rows - page && wanted <= page
    ensures NoneNewer(part - wanted, wanted)
  {
  }

  /** A page of the union divides into rows of the two branches. */
  lemma SplitByBranch(threads: multiset<Row>, comments: multiset<Row>, out: multiset<Row>)
    requires out <= threads + comments
    ensures var fromThreads := threads * out;
      var fromComments := out - fromThreads;
      && out == fromThreads + fromComments
      && |out| == |fromThreads| + |fromComments|
      && fromThreads <= threads && fromComments <= comments
      && threads - fromThreads <= threads + comments - out
      && comments - fromComments <= threads + comments - out
  {
  }

  lemma PushdownIsComplete(threads: multiset<Row>, comments: multiset<Row>, k: nat, result: seq<Row>)
    requires IsPage(threads + comments, k, result)
    ensures IsSearchResult(threads, comments, k, result)
  {
    hide NewestFirst, NoneNewer;
    var rows, out := threads + comments, multiset(result);
    var fromThreads := threads * out;
    var fromComments := out - fromThreads;
    assert |out| == |result|;
    SplitByBranch(threads, comments, out);
    FewerRows(rows, out, threads, fromThreads);
    FewerRows(rows, out, comments, fromComments);
    var a := PageWith(threads, k, fromThreads);
    var b := PageWith(comments, k, fromComments);
    var limited := multiset(a) + multiset(b);
    assert |limited| == |a| + |b|;
    assert limited <= rows && fromThreads + fromComments <= limited;
    FewerRows(rows, out, limited, out);
    assert IsPage(limited, k, result);
  }

  /**
   Limiting each branch before the union changes nothing: the pages the search may return
   are exactly the pages of the whole union, for every limit and every pair of row lists.
   */
  lemma PushdownIsExact(threads: multiset<Row>, comments: multiset<Row>, k: nat, result: seq<Row>)
    ensures IsSearchResult(threads, comments, k, result) <==> IsPage(threads + comments, k, result)
  {
    if IsSearchResult(threads, comments, k, result) {
      var a, b :| IsPage(threads, k, a) && IsPage(comments, k, b) && IsPage(multiset(a) + multiset(b), k, result);
      PushdownIsSound(threads, comments, a, b, k, result);
    }
    if IsPage(threads + comments, k, result) {
      PushdownIsComplete(threads, comments, k, result);
    }
  }

  // ----- the times of a page are determined

  function Times(rows: seq<Row>): seq<int>
  {
    seq(|rows|, i requires 0 <= i < |rows| => rows[i].createdAt)
  }

  lemma Excess(m: multiset<Row>, n: multiset<Row>) returns (x: Row)
    requires |m| > |n|
    ensures m[x] > n[x]
  {
    assert m <= n ==> n == m + (n - m);
    x :| m[x] > n[x];
  }

  /**
   Two pages of the same rows, cut before their rows `p` and `q` at the same position:
   `p` is not newer than `q`.
   */
  lemma NotNewerAt(rows: multiset<Row>, k: nat, head: seq<Row>, p: Row, tail: seq<Row>,
                   head': seq<Row>, q: Row, tail': seq<Row>)
    requires IsPage(rows, k, (head + [p]) + tail) && IsPage(rows, k, head' + ([q] + tail'))
    requires |head| == |head'|
    ensures p.createdAt <= q.createdAt
  {
    hide NoneNewer, NewestFirst;
    var upTo, onwards := multiset(head + [p]), multiset([q] + tail');
    AtMostLast(head, p, tail);
    AtMostFirst(head', q, tail');
    assert |upTo| == |head| + 1 && |multiset(head')| == |head|;
    var x := Excess(upTo, multiset(head'));
    assert x in head + [p];
    if x in onwards {
      assert x in [q] + tail';
    } else {
      var page' := multiset(head' + ([q] + tail'));
      assert page' == multiset(head') + onwards;
      assert multiset((head + [p]) + tail) == upTo + multiset(tail);
      assert x in rows - page';
      assert q in page' by {
        assert q in onwards;
      }
      RestNotNewer(rows, k, head' + ([q] + tail'), x, q);
    }
  }

  lemma RestNotNewer(rows: multiset<Row>, k: nat, page: seq<Row>, r: Row, p: Row)
    requires IsPage(rows, k, page) && r in rows - multiset(page) && p in multiset(page)
    ensures r.createdAt <= p.createdAt
  {
  }

  lemma AtMostLast(head: seq<Row>, p: Row, tail: seq<Row>)
    requires NewestFirst((head + [p]) + tail)
    ensures forall x :: x in head + [p] ==> x.createdAt >= p.createdAt
  {
    var page := (head + [p]) + tail;
    assert page[|head|] == p;
    forall x | x in head + [p] ensures x.createdAt >= p.createdAt {
      var i :| 0 <= i < |head + [p]| && (head + [p])[i] == x;
      assert page[i] == x;
    }
  }

  lemma AtMostFirst(head: seq<Row>, q: Row, tail: seq<Row>)
    requires NewestFirst(head + ([q] + tail))
    ensures forall x :: x in [q] + tail ==> x.createdAt <= q.createdAt
  {
    var page := head + ([q] + tail);
    assert page[|head|] == q;
    forall x | x in [q] + tail ensures x.createdAt <= q.createdAt {
      var i :| 0 <= i < |[q] + tail| && ([q] + tail)[i] == x;
      assert page[|head| + i] == x;
    }
  }

  lemma NotNewerAtIndex(rows: multiset<Row>, k: nat, page: seq<Row>, page': seq<Row>, i: nat)
    requires IsPage(rows, k, page) && IsPage(rows, k, page') && i < |page|
    ensures page[i].createdAt <= page'[i].createdAt
  {
    hide NoneNewer, NewestFirst;
    assert page == (page[..i] + [page[i]]) + page[i + 1..];
    assert page' == page'[..i] + ([page'[i]] + page'[i + 1..]);
    NotNewerAt(rows, k, page[..i], page[i], page[i + 1..], page'[..i], page'[i], page'[i + 1..]);
  }

  /**
   Ties aside there is one answer: the times of any search result are the first `k` times
   of the fully sorted union.
   */
  lemma SearchResultTimes(threads: seq<Row>, comments: seq<Row>, k: nat, result: seq<Row>)
    requires IsSearchResult(multiset(threads), multiset(comments), k, result)
    ensures var sorted := SortRows(threads + comments);
      Times(result) == Times(sorted[..Min(k, |sorted|)])
  {
    hide IsSearchResult, SortRows, NewestFirst;
    var sorted := SortRows(threads + comments);
    SortRowsSorts(threads + comments);
    var rows := multiset(threads) + multiset(comments);
    assert multiset(threads + comments) == rows;
    PushdownIsExact(multiset(threads), multiset(comments), k, result);
    PrefixOfSortIsPage(sorted, k);
    var page := sorted[..Min(k, |sorted|)];
    PagesHaveSameTimes(rows, k, page, result);
  }

  lemma PagesHaveSameTimes(rows: multiset<Row>, k: nat, page: seq<Row>, page': seq<Row>)
    requires IsPage(rows, k, page) && IsPage(rows, k, page')
    ensures Times(page) == Times(page')
  {
    hide NoneNewer, NewestFirst;
    forall i | 0 <= i < |page| ensures page[i].createdAt == page'[i].createdAt {
      NotNewerAtIndex(rows, k, page, page', i);
      NotNewerAtIndex(rows, k, page', page, i);
    }
  }

  // ----- the request

  datatype SearchError = QueryMissing | QueryTooShort

  /** A possible answer to a search, given the rows of both kinds that match the term. */
  ghost predicate Answers(term: string, threads: seq<Row>, comments: seq<Row>, answer: Result<seq<Row>, SearchError>)
  {
    if term == "" then answer == Failure(QueryMissing)
    else if |term| < 4 then answer == Failure(QueryTooShort)
    else answer.Success? && IsSearchResult(multiset(threads), multiset(comments), SEARCH_LIMIT, answer.value)
  }

  /**
   A search is refused exactly for terms under four characters; otherwise it answers with
   the most recent rows of both kinds, newest first, as many as there are up to 50: no row
   is invented, and none left out is newer than one shown.
   */
  lemma SearchAnswers(term: string, threads: seq<Row>, comments: seq<Row>, answer: Result<seq<Row>, SearchError>)
    requires Answers(term, threads, comments, answer)
    ensures answer.Failure? <==> |term| < 4
    ensures answer == Failure(QueryMissing) <==> |term| == 0
    ensures answer.Success? ==>
      && |answer.value| == (if |threads| + |comments| < 50 then |threads| + |comments| else 50)
      && (forall i, j :: 0 <= i < j < |answer.value| ==> answer.value[i].createdAt >= answer.value[j].createdAt)
      && multiset(answer.value) <= multiset(threads) + multiset(comments)
      && (forall r: Row, p: Row :: r in multiset(threads) + multiset(comments) - multiset(answer.value) && p in answer.value ==>
            r.createdAt <= p.createdAt)
      && Times(answer.value) == Times(SortRows(threads + comments)[..|answer.value|])
  {
    if answer.Success? {
      hide IsSearchResult, SortRows, Times;
      PushdownIsExact(multiset(threads), multiset(comments), 50, answer.value);
      SearchResultTimes(threads, comments, SEARCH_LIMIT, answer.value);
      SameTimesSameLength(answer.value, SortRows(threads + comments)[..Min(SEARCH_LIMIT, |threads| + |comments|)]);
    }
  }

  lemma SameTimesSameLength(a: seq<Row>, b: seq<Row>)
    requires Times(a) == Times(b)
    ensures |a| == |b|
  {
  }
}
