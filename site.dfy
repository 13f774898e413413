/**
 * The site's store as an object: the campaign table and the contribution
 * table, which the request handlers change by inserting rows, and the logical
 * clock that stamps each inserted row.
 *
 * Creating a campaign appends a Funding row; a pledge appends at most one
 * Contribution row, and only while the campaign is open. No row is ever
 * updated or deleted, so a campaign's target never changes after creation.
 */
module Site {
  import opened Records
  import opened Ledger
  import opened DetailView

  /**
   * Keys are assigned 1, 2, 3, ... in insertion order; every contribution
   * refers to an existing campaign; rows are stamped in insertion order, each
   * before the current clock.
   */
  ghost predicate StoreInvariant(fundings: seq<Funding>, rows: seq<Contribution>, clock: nat)
  {
    (forall i :: 0 <= i < |fundings| ==> fundings[i].id == i + 1 && fundings[i].createdAt < clock)
    && (forall i :: 0 <= i < |rows| ==>
          rows[i].id == i + 1 && 1 <= rows[i].fundingId <= |fundings| && rows[i].createdAt < clock)
    && OldestFirst(rows)
  }

  /** Inserting the row an accepted pledge writes keeps the store invariant. */
  lemma InsertKeepsInvariant(fundings: seq<Funding>, rows: seq<Contribution>, clock: nat, f: Funding,
                             name: string, amount: int, message: string)
    requires StoreInvariant(fundings, rows, clock)
    requires f in fundings
    ensures StoreInvariant(fundings, rows + [NewRow(rows, f, name, amount, message, clock)], clock + 1)
  {
    var row := NewRow(rows, f, name, amount, message, clock);
    var i :| 0 <= i < |fundings| && fundings[i] == f;
    var after := rows + [row];
    forall k | 0 <= k < |after|
      ensures after[k].id == k + 1 && 1 <= after[k].fundingId <= |fundings| && after[k].createdAt < clock + 1
    {
      if k < |rows| {
        assert after[k] == rows[k];
      }
    }
    forall j, k | 0 <= j < k < |after|
      ensures after[j].createdAt < after[k].createdAt
    {
      assert after[j] == rows[j];
      if k < |rows| {
        assert after[k] == rows[k];
      }
    }
  }

  /**
   * The newest campaign can be found by its key, has no contributions yet,
   * and (for a non-zero target) its page shows nothing pledged.
   */
  lemma NewCampaignIsEmpty(fundings: seq<Funding>, rows: seq<Contribution>, clock: nat)
    requires fundings != []
    requires forall i :: 0 <= i < |fundings| ==> fundings[i].id == i + 1
    requires forall i :: 0 <= i < |rows| ==> rows[i].fundingId < |fundings|
    ensures Find(fundings, |fundings|) == Some(fundings[|fundings| - 1])
    ensures Total(rows, |fundings|) == 0 && Listing(rows, |fundings|) == []
    ensures fundings[|fundings| - 1].target != 0 ==>
      var page := DetailPage(fundings, rows, |fundings|, None);
      page.Shown? && page.page.total == 0 && page.page.percent == 0
      && page.page.remaining == fundings[|fundings| - 1].target && page.page.contributions == []
  {
    var id := |fundings|;
    assert DistinctIds(fundings);
    FindLocates(fundings, id - 1);
    forall c | c in rows
      ensures c.fundingId != id
    {
      var i :| 0 <= i < |rows| && rows[i] == c;
    }
    TotalWithoutRows(rows, id);
    EmptyCampaignPage(fundings, rows, fundings[id - 1]);
  }

  /** The page of a campaign without contributions shows nothing pledged. */
  lemma EmptyCampaignPage(fundings: seq<Funding>, rows: seq<Contribution>, f: Funding)
    requires Find(fundings, f.id) == Some(f)
    requires Matching(rows, f.id) == []
    ensures f.target != 0 ==>
      var page := DetailPage(fundings, rows, f.id, None);
      page.Shown? && page.page.total == 0 && page.page.percent == 0
      && page.page.remaining == f.target && page.page.contributions == []
  {
    if f.target != 0 {
      PercentOfNothing(f.target);
    }
  }

  class FundingSite {
    var fundings: seq<Funding>
    var contributions: seq<Contribution>
    var clock: nat

    ghost predicate Valid()
      reads this
    {
      StoreInvariant(fundings, contributions, clock)
    }

    /** An empty store (the tables as `create_all` leaves them). */
    constructor ()
      ensures Valid()
      ensures fundings == [] && contributions == [] && clock == 0
    {
      fundings, contributions, clock := [], [], 0;
    }

    /**
     * Registers a campaign from the creation form and answers its key. The
     * uploaded image is represented by its file name only.
     */
    method Create(title: string, productLink: string, target: int, image: string,
                  bank: string, account: string, adminPassword: string) returns (id: int)
      requires Valid()
      modifies this
      ensures Valid()
      ensures id == |old(fundings)| + 1
      ensures fundings == old(fundings)
        + [Funding(id, title, productLink, image, target, adminPassword, bank, account, old(clock))]
      ensures contributions == old(contributions) && clock == old(clock) + 1
      ensures Find(fundings, id) == Some(fundings[id - 1])
      ensures Total(contributions, id) == 0 && Listing(contributions, id) == []
      ensures target != 0 ==>
        var page := DetailPage(fundings, contributions, id, None);
        page.Shown? && page.page.total == 0 && page.page.percent == 0
        && page.page.remaining == target && page.page.contributions == []
    {
      id := |fundings| + 1;
      fundings := fundings
        + [Funding(id, title, productLink, image, target, adminPassword, bank, account, clock)];
      clock := clock + 1;
      NewCampaignIsEmpty(fundings, contributions, clock);
    }

    /**
     * Serves a pledge form against campaign key `fid`: 404 for an unknown key;
     * a redirect that writes nothing once the campaign's total has reached its
     * target; otherwise one new row and success.
     */
    method Pledge(fid: int, name: string, amount: int, message: string) returns (outcome: PledgeOutcome)
      requires Valid()
      modifies this
      ensures Valid()
      ensures fundings == old(fundings)
      ensures outcome == Decide(fundings, old(contributions), fid)
      ensures contributions == PledgeRows(fundings, old(contributions), fid, name, amount, message, old(clock))
      ensures clock == if outcome == Success then old(clock) + 1 else old(clock)
      ensures Total(contributions, fid)
           == if outcome == Success then old(Total(contributions, fid)) + amount
              else old(Total(contributions, fid))
    {
      var found := Find(fundings, fid);
      if found.None? {
        return PledgeNotFound;
      }
      var f := found.value;
      var total := Total(contributions, f.id);
      if total >= f.target {
        return Redirected;
      }
      var row := NewRow(contributions, f, name, amount, message, clock);
      TotalAppend(contributions, row, fid);
      InsertKeepsInvariant(fundings, contributions, clock, f, name, amount, message);
      contributions := contributions + [row];
      clock := clock + 1;
      outcome := Success;
    }
  }

  /** The figures the page shows for totals 400, 800 and 1100 against a target of 1000. */
  lemma WalkthroughFigures()
    ensures Percent(400, 1000) == 40 && Remaining(1000, 400) == 600
    ensures Percent(800, 1000) == 80 && Remaining(1000, 800) == 200
    ensures Percent(1100, 1000) == 100 && Remaining(1000, 1100) == -100
  {
    PercentOfFunded(1100, 1000);
  }

  /**
   * A campaign with target 1000 receives pledges of 400, 400, 300 and 1: the
   * first three are accepted (the third one overshoots), the fourth is turned
   * away. WalkthroughFigures gives the percentages the page shows on the way.
   */
  method CampaignWalkthrough()
  {
    var site := new FundingSite();
    var id := site.Create("gift", "https://example.com/item", 1000, "item.png", "bank", "0000", "secret");
    ghost var campaign := site.fundings[0];
    assert campaign.target == 1000 && Find(site.fundings, id) == Some(campaign);

    var o1 := site.Pledge(id, "a", 400, "");
    assert o1 == Success && Total(site.contributions, id) == 400;

    var o2 := site.Pledge(id, "b", 400, "");
    assert o2 == Success && Total(site.contributions, id) == 800;

    var o3 := site.Pledge(id, "c", 300, "");
    assert o3 == Success && Total(site.contributions, id) == 1100;

    var o4 := site.Pledge(id, "d", 1, "");
    assert o4 == Redirected && Total(site.contributions, id) == 1100;
    assert |site.contributions| == 3;
  }

  /**
   * The boundary: at one below the target a pledge is still accepted; at
   * exactly the target the next one is turned away.
   */
  method BoundaryWalkthrough()
  {
    var site := new FundingSite();
    var id := site.Create("gift", "https://example.com/item", 1000, "item.png", "bank", "0000", "secret");
    var o1 := site.Pledge(id, "a", 999, "");
    assert o1 == Success && Total(site.contributions, id) == 999;
    var o2 := site.Pledge(id, "b", 1, "");
    assert o2 == Success && Total(site.contributions, id) == 1000;
    var o3 := site.Pledge(id, "c", 1, "");
    assert o3 == Redirected && Total(site.contributions, id) == 1000 && |site.contributions| == 2;
  }

  /** Two pledges to a new campaign are listed newest first. */
  method ListingWalkthrough()
  {
    var site := new FundingSite();
    var id := site.Create("gift", "https://example.com/item", 1000, "item.png", "bank", "0000", "secret");
    var o1 := site.Pledge(id, "a", 10, "first");
    var o2 := site.Pledge(id, "b", 20, "second");
    assert o1 == Success && o2 == Success;
    var rows := site.contributions;
    assert |rows| == 2;
    ListingAppend([], rows[0], id);
    ListingAppend(rows[..1], rows[1], id);
    assert [] + [rows[0]] == rows[..1] && rows[..1] + [rows[1]] == rows;
    assert Listing(rows, id) == [rows[1], rows[0]];
    assert rows[1].name == "b" && rows[0].name == "a";
  }

  /** A pledge to a key that does not exist is answered with 404; only the exact password unlocks the admin view. */
  method LookupAndAdminWalkthrough()
  {
    var site := new FundingSite();
    var id := site.Create("gift", "https://example.com/item", 1000, "item.png", "bank", "0000", "secret");
    var rows := site.contributions;
    var missing := site.Pledge(id + 1, "e", 5, "");
    assert missing == PledgeNotFound && site.contributions == rows;

    assert DetailPage(site.fundings, rows, id, Some("secret")).page.isAdmin;
    assert !DetailPage(site.fundings, rows, id, Some("")).page.isAdmin;
    assert !DetailPage(site.fundings, rows, id, None).page.isAdmin;
  }
}
