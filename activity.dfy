/** The append-only `user_activity` table and the dashboard's queries over it. */
module ActivityLog {
  import opened Rows
  import Seqs

  /** Insertion times grow strictly along the log. */
  ghost predicate Chronological(log: seq<Activity>)
  {
    forall i, j :: 0 <= i < j < |log| ==> log[i].date < log[j].date
  }

  predicate Matches(a: Activity, uid: UserId, kind: ActivityKind)
  {
    a.userId == uid && a.kind == kind
  }

  /** `WHERE user_id = %s`, keeping log order. */
  function OfUser(log: seq<Activity>, uid: UserId): (r: seq<Activity>)
    ensures |r| <= |log|
    ensures forall a {:trigger a in r} :: a in r <==> a in log && a.userId == uid
  {
    if log == [] then []
    else
      assert log == [log[0]] + log[1..];
      (if log[0].userId == uid then [log[0]] else []) + OfUser(log[1..], uid)
  }

  /** `SELECT COUNT(*) ... WHERE user_id = %s AND activity_type = %s`. */
  function CountKind(log: seq<Activity>, uid: UserId, kind: ActivityKind): (n: nat)
    ensures n <= |log|
    ensures n == 0 <==> forall k :: 0 <= k < |log| ==> !Matches(log[k], uid, kind)
  {
    if log == [] then 0
    else
      var rest := CountKind(log[1..], uid, kind);
      assert forall k :: 1 <= k < |log| ==> log[k] == log[1..][k - 1];
      (if Matches(log[0], uid, kind) then 1 else 0) + rest
  }

  /** The dashboard's `ORDER BY activity_date DESC LIMIT 5` for one user. */
  function Recent(log: seq<Activity>, uid: UserId): (r: seq<Activity>)
    ensures |r| <= RecentLimit
    ensures forall a :: a in r ==> a in log && a.userId == uid
  {
    var mine := OfUser(log, uid);
    var newest := Seqs.Reverse(mine);
    var r := if |newest| <= RecentLimit then newest else newest[..RecentLimit];
    forall a | a in r ensures a in log && a.userId == uid {
      assert a in newest;
      assert a in multiset(mine);
      assert a in mine;
    }
    r
  }

  lemma {:induction false} OfUserChronological(log: seq<Activity>, uid: UserId)
    requires Chronological(log)
    ensures Chronological(OfUser(log, uid))
  {
    if log != [] {
      var tail := log[1..];
      OfUserChronological(tail, uid);
      forall a | a in OfUser(tail, uid) ensures log[0].date < a.date {
        var k :| 0 <= k < |tail| && tail[k] == a;
        assert log[k + 1] == a;
      }
    }
  }

  /** Position k of the dashboard's list is the k-th newest activity of the user. */
  lemma RecentAt(log: seq<Activity>, uid: UserId)
    ensures var r := Recent(log, uid);
      var mine := OfUser(log, uid);
      && |r| == (if |mine| <= RecentLimit then |mine| else RecentLimit)
      && forall k :: 0 <= k < |r| ==> r[k] == mine[|mine| - 1 - k]
  {
    var mine := OfUser(log, uid);
    var newest := Seqs.Reverse(mine);
    var r := Recent(log, uid);
    assert r == if |newest| <= RecentLimit then newest else newest[..RecentLimit];
    assert forall k :: 0 <= k < |r| ==> r[k] == newest[k];
  }

  /** The dashboard lists the user's activities newest first: at most five,
      and all of them when there are no more than five. */
  lemma RecentIsNewestFirst(log: seq<Activity>, uid: UserId)
    requires Chronological(log)
    ensures var r := Recent(log, uid);
      && |r| == (if |OfUser(log, uid)| <= RecentLimit then |OfUser(log, uid)| else RecentLimit)
      && forall i, j :: 0 <= i < j < |r| ==> r[i].date > r[j].date
  {
    OfUserChronological(log, uid);
    RecentAt(log, uid);
  }

  /** A newest-first prefix of a chronological log leaves out only older entries. */
  lemma NewestPrefixOmitsOnlyOlder(mine: seq<Activity>, r: seq<Activity>)
    requires Chronological(mine)
    requires |r| <= |mine|
    requires forall k :: 0 <= k < |r| ==> r[k] == mine[|mine| - 1 - k]
    ensures forall a, k :: a in mine && a !in r && 0 <= k < |r| ==> a.date < r[k].date
  {
    var n := |mine|;
    forall p | 0 <= p < n && n - 1 - p < |r| ensures mine[p] in r {
      assert r[n - 1 - p] == mine[p];
    }
    forall a, k | a in mine && a !in r && 0 <= k < |r| ensures a.date < r[k].date {
      var p :| 0 <= p < n && mine[p] == a;
      assert p < n - 1 - k;
    }
  }

  /** Every activity of the user that the dashboard leaves out is older than
      every activity it shows. */
  lemma RecentOmitsOnlyOlder(log: seq<Activity>, uid: UserId)
    requires Chronological(log)
    ensures var r := Recent(log, uid);
      forall a, k :: a in log && a.userId == uid && a !in r && 0 <= k < |r| ==> a.date < r[k].date
  {
    OfUserChronological(log, uid);
    RecentAt(log, uid);
    NewestPrefixOmitsOnlyOlder(OfUser(log, uid), Recent(log, uid));
  }

  /** Logging one activity raises its user's count for its kind by one. */
  lemma {:induction false} CountKindAppend(log: seq<Activity>, a: Activity, uid: UserId, kind: ActivityKind)
    ensures CountKind(log + [a], uid, kind) ==
      CountKind(log, uid, kind) + (if Matches(a, uid, kind) then 1 else 0)
  {
    if log == [] {
      assert [a][1..] == [];
    } else {
      assert (log + [a])[1..] == log[1..] + [a];
      CountKindAppend(log[1..], a, uid, kind);
    }
  }
}
