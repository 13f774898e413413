/**
 * The values the campaign detail page shows, derived from the campaign row and
 * the contribution table on every view: the total, the progress percentage
 * (clamped at 100), the amount still missing (not clamped), the contributions
 * newest first, and whether the admin-only parts are shown.
 */
module DetailView {
  import opened Records
  import opened Ledger

  // ---------------------------------------------------------------------
  // The contribution list, newest first
  // ---------------------------------------------------------------------

  function Reverse(s: seq<Contribution>): (r: seq<Contribution>)
    ensures |r| == |s|
    ensures forall i :: 0 <= i < |s| ==> r[i] == s[|s| - 1 - i]
    ensures multiset(r) == multiset(s)
    ensures forall x :: x in r <==> x in s
  {
    if s == [] then []
    else
      assert s == [s[0]] + s[1..];
      Reverse(s[1..]) + [s[0]]
  }

  /** Every row strictly later than the rows before it: the order rows are inserted in. */
  predicate OldestFirst(s: seq<Contribution>)
  {
    forall i, j :: 0 <= i < j < |s| ==> s[i].createdAt < s[j].createdAt
  }

  /** Every row strictly earlier than the rows before it (ORDER BY created_at DESC). */
  predicate NewestFirst(s: seq<Contribution>)
  {
    forall i, j :: 0 <= i < j < |s| ==> s[i].createdAt > s[j].createdAt
  }

  /** The campaign's contributions as the page lists them. */
  function Listing(rows: seq<Contribution>, fid: int): seq<Contribution>
  {
    Reverse(Matching(rows, fid))
  }

  /** In an oldest-first sequence the head is older than everything after it. */
  lemma HeadIsOldest(rows: seq<Contribution>, c: Contribution)
    requires OldestFirst(rows) && rows != []
    requires c in rows[1..]
    ensures rows[0].createdAt < c.createdAt
  {
    var j :| 0 <= j < |rows| - 1 && rows[1..][j] == c;
    assert rows[j + 1] == c;
  }

  /** Putting a row older than all of an oldest-first sequence in front keeps it oldest first. */
  lemma ConsOldestFirst(x: Contribution, m: seq<Contribution>)
    requires OldestFirst(m)
    requires forall k :: 0 <= k < |m| ==> x.createdAt < m[k].createdAt
    ensures OldestFirst([x] + m)
  {
    var s := [x] + m;
    forall i, j | 0 <= i < j < |s|
      ensures s[i].createdAt < s[j].createdAt
    {
      assert s[j] == m[j - 1];
      if i > 0 {
        assert s[i] == m[i - 1];
      }
    }
  }

  /** Selecting one campaign's rows keeps the insertion order. */
  lemma {:induction false} MatchingKeepsOrder(rows: seq<Contribution>, fid: int)
    requires OldestFirst(rows)
    ensures OldestFirst(Matching(rows, fid))
  {
    if rows != [] {
      var tail := rows[1..];
      MatchingKeepsOrder(tail, fid);
      var m := Matching(tail, fid);
      if rows[0].fundingId == fid {
        forall k | 0 <= k < |m|
          ensures rows[0].createdAt < m[k].createdAt
        {
          assert m[k] in m;
          HeadIsOldest(rows, m[k]);
        }
        ConsOldestFirst(rows[0], m);
      }
    }
  }

  /**
   * Over a table in insertion order, the listing holds exactly the campaign's
   * rows, once each, newest first.
   */
  lemma ListingNewestFirst(rows: seq<Contribution>, fid: int)
    requires OldestFirst(rows)
    ensures NewestFirst(Listing(rows, fid))
    ensures multiset(Listing(rows, fid)) == multiset(Matching(rows, fid))
    ensures forall c :: c in Listing(rows, fid) <==> c in rows && c.fundingId == fid
  {
    MatchingKeepsOrder(rows, fid);
    ReverseOfOldestFirst(Matching(rows, fid));
  }

  /** Reversing an oldest-first sequence gives a newest-first one. */
  lemma ReverseOfOldestFirst(m: seq<Contribution>)
    requires OldestFirst(m)
    ensures NewestFirst(Reverse(m))
  {
    var l := Reverse(m);
    forall i, j | 0 <= i < j < |l|
      ensures l[i].createdAt > l[j].createdAt
    {
      assert l[i] == m[|m| - 1 - i] && l[j] == m[|m| - 1 - j];
    }
  }

  /** If `b` is strictly newest first and `a` is too, the first element of `a` found in `b` is `b`'s head. */
  lemma SameHead(a: seq<Contribution>, b: seq<Contribution>)
    requires NewestFirst(a) && NewestFirst(b)
    requires a != [] && b != []
    requires a[0] in b && b[0] in a
    ensures a[0] == b[0]
  {
    var i :| 0 <= i < |a| && a[i] == b[0];
    var j :| 0 <= j < |b| && b[j] == a[0];
    if i > 0 && j > 0 {
      assert false;
    }
  }

  /** A later element of a strictly newest-first sequence is not its head. */
  lemma TailMember(a: seq<Contribution>, b: seq<Contribution>, c: Contribution)
    requires NewestFirst(b)
    requires a != [] && b != [] && a[0] == b[0]
    requires c in a[1..] && c in b
    requires NewestFirst(a)
    ensures c in b[1..]
  {
    var k :| 0 <= k < |a| - 1 && a[1..][k] == c;
    assert a[k + 1] == c;
    var l :| 0 <= l < |b| && b[l] == c;
    if l == 0 {
      assert false;
    }
    assert b[1..][l - 1] == c;
  }

  /**
   * There is only one strictly newest-first arrangement of a set of rows, so
   * any ordering by creation time, descending, of the campaign's rows is the
   * listing.
   */
  lemma {:induction false} NewestFirstIsUnique(a: seq<Contribution>, b: seq<Contribution>)
    requires NewestFirst(a) && NewestFirst(b)
    requires forall c :: c in a <==> c in b
    ensures a == b
    decreases |a|
  {
    if a != [] {
      assert a[0] in a;
    }
    if b != [] {
      assert b[0] in b;
    }
    if a != [] && b != [] {
      SameHead(a, b);
      forall c
        ensures c in a[1..] <==> c in b[1..]
      {
        if c in a[1..] {
          assert c in a;
          TailMember(a, b, c);
        }
        if c in b[1..] {
          assert c in b;
          TailMember(b, a, c);
        }
      }
      NewestFirstIsUnique(a[1..], b[1..]);
      assert a == [a[0]] + a[1..] && b == [b[0]] + b[1..];
    }
  }

  /** The listing is what ordering the campaign's rows by creation time, descending, yields. */
  lemma ListingIsOrderByCreatedDesc(rows: seq<Contribution>, fid: int, shown: seq<Contribution>)
    requires OldestFirst(rows)
    requires NewestFirst(shown)
    requires forall c :: c in shown <==> c in rows && c.fundingId == fid
    ensures shown == Listing(rows, fid)
  {
    ListingNewestFirst(rows, fid);
    NewestFirstIsUnique(shown, Listing(rows, fid));
  }

  lemma {:induction false} ReverseAppend(s: seq<Contribution>, x: Contribution)
    ensures Reverse(s + [x]) == [x] + Reverse(s)
  {
    if s == [] {
      assert s + [x] == [x];
    } else {
      assert (s + [x])[1..] == s[1..] + [x];
      ReverseAppend(s[1..], x);
    }
  }

  /** The newest row of a campaign appears at the top of its list. */
  lemma {:induction false} ListingAppend(rows: seq<Contribution>, c: Contribution, fid: int)
    ensures Listing(rows + [c], fid)
         == (if c.fundingId == fid then [c] else []) + Listing(rows, fid)
  {
    MatchingAppend(rows, c, fid);
    var m := Matching(rows, fid);
    if c.fundingId == fid {
      ReverseAppend(m, c);
    } else {
      assert m + [] == m;
    }
  }

  // ---------------------------------------------------------------------
  // Percent, remaining, admin flag
  // ---------------------------------------------------------------------

  function Abs(x: int): nat
  {
    if x < 0 then -x else x
  }

  /** Integer quotient rounded toward zero, as `int(...)` rounds a quotient. */
  function TruncDiv(a: int, b: int): int
    requires b != 0
  {
    var q := Abs(a) / Abs(b);
    if (a < 0) == (b < 0) then q else -q
  }

  /** The progress percentage, `min(int(total / target * 100), 100)`. */
  function Percent(total: int, target: int): (p: int)
    requires target != 0
    ensures p <= 100
    ensures p == 100 || p == TruncDiv(100 * total, target)
    ensures p == 100 <==> TruncDiv(100 * total, target) >= 100
  {
    var raw := TruncDiv(100 * total, target);
    if raw < 100 then raw else 100
  }

  lemma QuotientAtLeast(a: int, b: int, k: int)
    requires b > 0 && a >= k * b
    ensures a / b >= k
  {
    var q, r := a / b, a % b;
    assert a == b * q + r && r < b;
    assert b * (q - (k - 1)) > 0;
  }

  lemma QuotientBelow(a: int, b: int, k: int)
    requires b > 0 && 0 <= a < k * b
    ensures a / b < k
  {
    var q, r := a / b, a % b;
    assert a == b * q + r && 0 <= r;
    assert b * (k - q) > 0;
  }

  /** A campaign at or past its target shows 100 percent, never more. */
  lemma PercentOfFunded(total: int, target: int)
    requires target > 0 && total >= target
    ensures Percent(total, target) == 100
  {
    QuotientAtLeast(100 * total, target, 100);
  }

  /**
   * Below its target (and not negative) a campaign shows the floor of
   * 100 * total / target, which is under 100.
   */
  lemma PercentOfPartial(total: int, target: int)
    requires target > 0 && 0 <= total < target
    ensures 0 <= Percent(total, target) < 100
    ensures Percent(total, target) * target <= 100 * total < (Percent(total, target) + 1) * target
  {
    QuotientBelow(100 * total, target, 100);
    var p := (100 * total) / target;
    assert 100 * total == target * p + (100 * total) % target;
  }

  /** A campaign with nothing pledged shows 0 percent. */
  lemma PercentOfNothing(target: int)
    requires target != 0
    ensures Percent(0, target) == 0
  {
  }

  /** What is still missing; negative exactly when the campaign is over-funded. */
  function Remaining(target: int, total: int): (r: int)
    ensures r + total == target
    ensures r < 0 <==> total > target
    ensures r == 0 <==> total == target
  {
    target - total
  }

  /**
   * The admin flag: the `admin` query value (absent is `None`) equals the
   * stored password character for character. Absent never matches.
   */
  function IsAdmin(query: Option<string>, password: string): (b: bool)
    ensures b <==> query.Some? && |query.value| == |password|
                   && forall i :: 0 <= i < |password| ==> query.value[i] == password[i]
    ensures query.None? ==> !b
  {
    match query
    case None => false
    case Some(q) => q == password
  }

  // ---------------------------------------------------------------------
  // The detail page (GET)
  // ---------------------------------------------------------------------

  /** Why a detail page cannot be shown: unknown key (404), or a zero target in the division. */
  datatype PageError = NotFound | DivisionByZero

  datatype Page = Page(
    funding: Funding,
    total: int,
    percent: int,
    remaining: int,
    contributions: seq<Contribution>,
    isAdmin: bool)

  datatype PageResult = Shown(page: Page) | Failed(error: PageError)

  /** The detail page of campaign key `fid`, viewed with `admin` as the query value. */
  function DetailPage(fundings: seq<Funding>, rows: seq<Contribution>, fid: int,
                      admin: Option<string>): (r: PageResult)
    ensures r == Failed(NotFound) <==> Find(fundings, fid).None?
    ensures r == Failed(DivisionByZero) <==> Find(fundings, fid).Some? && Find(fundings, fid).value.target == 0
    ensures r.Shown? ==>
      var p := r.page;
      p.funding in fundings && p.funding.id == fid
      && p.total == Total(rows, fid)
      && p.percent <= 100
      && p.remaining + p.total == p.funding.target
      && (p.isAdmin <==> admin == Some(p.funding.adminPassword))
  {
    match Find(fundings, fid)
    case None => Failed(NotFound)
    case Some(f) =>
      var total := Total(rows, f.id);
      var isAdmin := IsAdmin(admin, f.adminPassword);
      if f.target == 0 then Failed(DivisionByZero)
      else
        Shown(Page(f, total, Percent(total, f.target), Remaining(f.target, total),
                   Listing(rows, f.id), isAdmin))
  }

  /** Over a table in insertion order the page lists exactly the campaign's rows, newest first. */
  lemma DetailPageListing(fundings: seq<Funding>, rows: seq<Contribution>, fid: int,
                          admin: Option<string>)
    requires OldestFirst(rows)
    requires DetailPage(fundings, rows, fid, admin).Shown?
    ensures NewestFirst(DetailPage(fundings, rows, fid, admin).page.contributions)
    ensures forall c :: c in DetailPage(fundings, rows, fid, admin).page.contributions
                        <==> c in rows && c.fundingId == fid
  {
    ListingNewestFirst(rows, fid);
  }
}
