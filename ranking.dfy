/**
 * The ranked queries over photos: the home page, the leaderboard and the
 * previous winners all take the approved photos ordered by vote count,
 * highest first, and keep the first few. The database's order among equal
 * counts is not fixed by the queries; this model keeps ascending id order
 * among ties, and the contracts below say nothing about it.
 */
module Ranking {

  import opened Models

  const HOME_LIMIT: nat := 8
  const LEADERBOARD_LIMIT: nat := 20
  const WINNERS_LIMIT: nat := 3

  predicate IsApproved(photos: map<PhotoId, Photo>, id: PhotoId) {
    id in photos && photos[id].status == Approved
  }

  predicate NonIncreasing(photos: map<PhotoId, Photo>, s: seq<PhotoId>) {
    forall i, j :: 0 <= i < j < |s| ==> Votes(photos, s[i]) >= Votes(photos, s[j])
  }

  predicate Distinct(s: seq<PhotoId>) {
    forall i, j :: 0 <= i < j < |s| ==> s[i] != s[j]
  }

  /** The approved ids below n, in ascending order (filter_by(status='approved')). */
  function ApprovedIds(photos: map<PhotoId, Photo>, n: nat): (r: seq<PhotoId>)
    ensures forall id: PhotoId :: id in r <==> id < n && IsApproved(photos, id)
    ensures Distinct(r)
  {
    if n == 0 then []
    else
      var rest := ApprovedIds(photos, n - 1);
      if IsApproved(photos, n - 1) then rest + [n - 1] else rest
  }

  /** Puts id after every entry with more votes and before the first with no more. */
  function InsertByVotes(photos: map<PhotoId, Photo>, id: PhotoId, s: seq<PhotoId>): (r: seq<PhotoId>)
    ensures multiset(r) == multiset(s) + multiset{id}
    ensures forall x :: x in r <==> x in s || x == id
  {
    if s == [] then [id]
    else if Votes(photos, s[0]) > Votes(photos, id) then
      assert s == [s[0]] + s[1..];
      [s[0]] + InsertByVotes(photos, id, s[1..])
    else
      [id] + s
  }

  lemma ConsNonIncreasing(photos: map<PhotoId, Photo>, x: PhotoId, t: seq<PhotoId>)
    requires NonIncreasing(photos, t)
    requires forall y :: y in t ==> Votes(photos, x) >= Votes(photos, y)
    ensures NonIncreasing(photos, [x] + t)
  {
    var r := [x] + t;
    forall i, j | 0 <= i < j < |r| ensures Votes(photos, r[i]) >= Votes(photos, r[j]) {
      assert r[j] == t[j - 1];
      if i > 0 { assert r[i] == t[i - 1]; }
    }
  }

  lemma ConsDistinct(x: PhotoId, t: seq<PhotoId>)
    requires Distinct(t) && x !in t
    ensures Distinct([x] + t)
  {
    var r := [x] + t;
    forall i, j | 0 <= i < j < |r| ensures r[i] != r[j] {
      assert r[j] == t[j - 1];
      if i > 0 { assert r[i] == t[i - 1]; }
    }
  }

  lemma TailOf(photos: map<PhotoId, Photo>, s: seq<PhotoId>)
    requires s != []
    ensures NonIncreasing(photos, s) ==> NonIncreasing(photos, s[1..])
    ensures NonIncreasing(photos, s) ==> forall y :: y in s[1..] ==> Votes(photos, s[0]) >= Votes(photos, y)
    ensures Distinct(s) ==> Distinct(s[1..]) && s[0] !in s[1..]
  {
    forall y | y in s[1..] ensures exists k :: 1 <= k < |s| && s[k] == y {
      var k :| 0 <= k < |s[1..]| && s[1..][k] == y;
      assert s[k + 1] == y;
    }
  }

  lemma {:induction false} InsertKeepsOrder(photos: map<PhotoId, Photo>, id: PhotoId, s: seq<PhotoId>)
    requires NonIncreasing(photos, s)
    ensures NonIncreasing(photos, InsertByVotes(photos, id, s))
    ensures Distinct(s) && id !in s ==> Distinct(InsertByVotes(photos, id, s))
  {
    if s == [] {
    } else if Votes(photos, s[0]) > Votes(photos, id) {
      TailOf(photos, s);
      var rest := InsertByVotes(photos, id, s[1..]);
      InsertKeepsOrder(photos, id, s[1..]);
      ConsNonIncreasing(photos, s[0], rest);
      if Distinct(s) && id !in s {
        ConsDistinct(s[0], rest);
      }
    } else {
      TailOf(photos, s);
      ConsNonIncreasing(photos, id, s);
      if Distinct(s) && id !in s {
        ConsDistinct(id, s);
      }
    }
  }

  /** order_by(votes_count.desc()): a non-increasing permutation of its input. */
  function SortByVotes(photos: map<PhotoId, Photo>, s: seq<PhotoId>): (r: seq<PhotoId>)
    ensures multiset(r) == multiset(s)
    ensures NonIncreasing(photos, r)
    ensures Distinct(s) ==> Distinct(r)
  {
    if s == [] then []
    else
      assert s == [s[0]] + s[1..];
      var rest := SortByVotes(photos, s[1..]);
      InsertKeepsOrder(photos, s[0], rest);
      TailOf(photos, s);
      assert s[0] in rest ==> s[0] in multiset(s[1..]);
      InsertByVotes(photos, s[0], rest)
  }

  /** filter_by(status='approved').order_by(votes_count.desc()).limit(limit), over the ids below n. */
  function Top(photos: map<PhotoId, Photo>, n: nat, limit: nat): (r: seq<PhotoId>)
    ensures |r| <= limit
    ensures forall i :: 0 <= i < |r| ==> IsApproved(photos, r[i])
    ensures NonIncreasing(photos, r)
    ensures Distinct(r)
  {
    var approved := ApprovedIds(photos, n);
    var sorted := SortByVotes(photos, approved);
    SortedAreApproved(photos, approved, sorted);
    if |sorted| <= limit then sorted
    else
      PrefixKeepsOrder(photos, sorted, limit);
      sorted[..limit]
  }

  /** A permutation of approved ids holds only approved ids. */
  lemma SortedAreApproved(photos: map<PhotoId, Photo>, approved: seq<PhotoId>, sorted: seq<PhotoId>)
    requires forall id :: id in approved ==> IsApproved(photos, id)
    requires multiset(sorted) == multiset(approved)
    ensures forall i :: 0 <= i < |sorted| ==> IsApproved(photos, sorted[i])
  {
    forall i | 0 <= i < |sorted| ensures IsApproved(photos, sorted[i]) {
      assert sorted[i] in multiset(approved);
    }
  }

  /** Cutting an ordered list of distinct approved ids keeps all three properties. */
  lemma PrefixKeepsOrder(photos: map<PhotoId, Photo>, s: seq<PhotoId>, m: nat)
    requires m <= |s|
    requires NonIncreasing(photos, s) && Distinct(s)
    requires forall i :: 0 <= i < |s| ==> IsApproved(photos, s[i])
    ensures NonIncreasing(photos, s[..m]) && Distinct(s[..m])
    ensures forall i :: 0 <= i < m ==> IsApproved(photos, s[..m][i])
  {
  }

  /**
   * What the ranked queries promise: at most limit distinct approved
   * photos, most votes first, and nothing better left out.
   */
  ghost predicate IsRanking(photos: map<PhotoId, Photo>, r: seq<PhotoId>, limit: nat) {
    && |r| <= limit
    && Distinct(r)
    && NonIncreasing(photos, r)
    && (forall i :: 0 <= i < |r| ==> IsApproved(photos, r[i]))
    && (forall id :: IsApproved(photos, id) && id !in r ==>
          |r| == limit && forall i :: 0 <= i < |r| ==> Votes(photos, r[i]) >= Votes(photos, id))
  }

  /** With every photo id below n, Top is a ranking. */
  lemma TopIsRanking(photos: map<PhotoId, Photo>, n: nat, limit: nat)
    requires forall p :: p in photos ==> p < n
    ensures IsRanking(photos, Top(photos, n, limit), limit)
  {
    var approved := ApprovedIds(photos, n);
    var sorted := SortByVotes(photos, approved);
    var r := Top(photos, n, limit);
    forall id | IsApproved(photos, id) && id !in r
      ensures |r| == limit && forall i :: 0 <= i < |r| ==> Votes(photos, r[i]) >= Votes(photos, id)
    {
      assert id in multiset(sorted) by { assert id in approved; }
      var k :| 0 <= k < |sorted| && sorted[k] == id;
      assert k >= limit;
    }
  }

  /** Five photos: four approved with 3, 5, 1 and 3 votes, and a pending one with 9. */
  function ExamplePhotos(): map<PhotoId, Photo> {
    map[1 := Photo(7, "a", "", Approved, 3), 2 := Photo(7, "b", "", Approved, 5),
        3 := Photo(8, "c", "", Approved, 1), 4 := Photo(8, "d", "", Approved, 3),
        5 := Photo(8, "e", "", Pending, 9)]
  }

  lemma ExampleApproved()
    ensures ApprovedIds(ExamplePhotos(), 6) == [1, 2, 3, 4]
  {
    var photos := ExamplePhotos();
    assert ApprovedIds(photos, 1) == [];
    assert ApprovedIds(photos, 2) == [1];
    assert ApprovedIds(photos, 3) == [1, 2];
    assert ApprovedIds(photos, 4) == [1, 2, 3];
    assert ApprovedIds(photos, 5) == [1, 2, 3, 4];
  }

  /** One step of the sort: the head goes into the sorted tail. */
  lemma SortStep(photos: map<PhotoId, Photo>, x: PhotoId, t: seq<PhotoId>)
    ensures SortByVotes(photos, [x] + t) == InsertByVotes(photos, x, SortByVotes(photos, t))
  {
    assert ([x] + t)[1..] == t;
  }

  /** One step of the insertion: id goes in front of an entry with no more votes, behind one with more. */
  lemma InsertStep(photos: map<PhotoId, Photo>, id: PhotoId, x: PhotoId, t: seq<PhotoId>)
    ensures Votes(photos, x) > Votes(photos, id) ==>
              InsertByVotes(photos, id, [x] + t) == [x] + InsertByVotes(photos, id, t)
    ensures Votes(photos, x) <= Votes(photos, id) ==> InsertByVotes(photos, id, [x] + t) == [id, x] + t
  {
    assert ([x] + t)[0] == x && ([x] + t)[1..] == t;
  }

  lemma ExampleInsertions(photos: map<PhotoId, Photo>)
    requires Votes(photos, 1) == 3 && Votes(photos, 2) == 5 && Votes(photos, 3) == 1 && Votes(photos, 4) == 3
    ensures InsertByVotes(photos, 4, []) == [4]
    ensures InsertByVotes(photos, 3, [4]) == [4, 3]
    ensures InsertByVotes(photos, 2, [4, 3]) == [2, 4, 3]
    ensures InsertByVotes(photos, 1, [2, 4, 3]) == [2, 1, 4, 3]
  {
    InsertStep(photos, 3, 4, []);
    assert InsertByVotes(photos, 3, []) == [3];
    InsertStep(photos, 2, 4, [3]);
    InsertStep(photos, 1, 2, [4, 3]);
    InsertStep(photos, 1, 4, [3]);
  }

  /** The sort of the example depends only on the four counts. */
  lemma ExampleSorted(photos: map<PhotoId, Photo>)
    requires Votes(photos, 1) == 3 && Votes(photos, 2) == 5 && Votes(photos, 3) == 1 && Votes(photos, 4) == 3
    ensures SortByVotes(photos, [1, 2, 3, 4]) == [2, 1, 4, 3]
  {
    ExampleInsertions(photos);
    SortStep(photos, 4, []);
    SortStep(photos, 3, [4]);
    SortStep(photos, 2, [3, 4]);
    SortStep(photos, 1, [2, 3, 4]);
  }

  lemma ExampleCounts()
    ensures Votes(ExamplePhotos(), 1) == 3 && Votes(ExamplePhotos(), 2) == 5
    ensures Votes(ExamplePhotos(), 3) == 1 && Votes(ExamplePhotos(), 4) == 3
  {
  }

  /** The leaderboard of any photos whose approved ids below 6 sort to [2, 1, 4, 3]. */
  lemma TopOfSorted(photos: map<PhotoId, Photo>)
    requires ApprovedIds(photos, 6) == [1, 2, 3, 4]
    requires SortByVotes(photos, [1, 2, 3, 4]) == [2, 1, 4, 3]
    ensures Top(photos, 6, LEADERBOARD_LIMIT) == [2, 1, 4, 3]
  {
  }

  /**
   * The leaderboard of the example: 5 votes first, then the two photos with
   * 3 in id order, then 1; the pending photo's 9 votes do not place it.
   */
  lemma RankingExample()
    ensures Top(ExamplePhotos(), 6, LEADERBOARD_LIMIT) == [2, 1, 4, 3]
  {
    ExampleApproved();
    ExampleCounts();
    ExampleSorted(ExamplePhotos());
    TopOfSorted(ExamplePhotos());
  }
}
