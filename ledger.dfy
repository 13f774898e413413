/**
 * The campaign ledger: the pledged total of a campaign, derived on every
 * request from the contribution table, and the pledge gate that lets a new
 * row in only while that total is below the campaign's target.
 *
 * The table is a sequence of rows in insertion order. Nothing is stored about
 * a campaign's progress: every value here is recomputed from the rows.
 */
module Ledger {
  import opened Records

  // ---------------------------------------------------------------------
  // Aggregation
  // ---------------------------------------------------------------------

  /** The rows of campaign `fid`, in table order (the `filter_by(funding_id=...)` query). */
  function Matching(rows: seq<Contribution>, fid: int): (m: seq<Contribution>)
    ensures |m| <= |rows|
    ensures forall c :: c in m <==> c in rows && c.fundingId == fid
  {
    if rows == [] then []
    else if rows[0].fundingId == fid then [rows[0]] + Matching(rows[1..], fid)
    else Matching(rows[1..], fid)
  }

  /** The SUM aggregate over the `amount` column of `rows`. */
  function SumAmounts(rows: seq<Contribution>): int
  {
    if rows == [] then 0 else rows[0].amount + SumAmounts(rows[1..])
  }

  /**
   * The pledged total of campaign `fid`: SUM(amount) over its rows. The store
   * answers NULL for an empty group and the handler turns that into 0; the
   * empty sum below is that 0.
   */
  function Total(rows: seq<Contribution>, fid: int): int
  {
    SumAmounts(Matching(rows, fid))
  }

  /** The amount a row contributes to campaign `fid`'s total: its own, or nothing. */
  function Share(c: Contribution, fid: int): int
  {
    if c.fundingId == fid then c.amount else 0
  }

  /** A second reading of the total: every row of the table, each counted by its share. */
  function SharesOf(rows: seq<Contribution>, fid: int): int
  {
    if rows == [] then 0 else Share(rows[0], fid) + SharesOf(rows[1..], fid)
  }

  /** Filtering and then summing is the same as summing every row's share. */
  lemma {:induction false} TotalIsSumOfShares(rows: seq<Contribution>, fid: int)
    ensures Total(rows, fid) == SharesOf(rows, fid)
  {
    if rows != [] {
      TotalIsSumOfShares(rows[1..], fid);
    }
  }

  /** A campaign with no rows in the table has total 0. */
  lemma {:induction false} TotalWithoutRows(rows: seq<Contribution>, fid: int)
    requires forall c :: c in rows ==> c.fundingId != fid
    ensures Total(rows, fid) == 0
    ensures Matching(rows, fid) == []
  {
  }

  lemma {:induction false} MatchingAppend(rows: seq<Contribution>, c: Contribution, fid: int)
    ensures Matching(rows + [c], fid)
         == Matching(rows, fid) + (if c.fundingId == fid then [c] else [])
  {
    if rows == [] {
      assert rows + [c] == [c];
    } else {
      assert (rows + [c])[1..] == rows[1..] + [c];
      MatchingAppend(rows[1..], c, fid);
    }
  }

  lemma {:induction false} SumAmountsAppend(rows: seq<Contribution>, c: Contribution)
    ensures SumAmounts(rows + [c]) == SumAmounts(rows) + c.amount
  {
    if rows == [] {
      assert rows + [c] == [c];
    } else {
      assert (rows + [c])[1..] == rows[1..] + [c];
      SumAmountsAppend(rows[1..], c);
    }
  }

  /**
   * Appending a row raises the total of its own campaign by its amount and
   * leaves the total of every other campaign as it was.
   */
  lemma TotalAppend(rows: seq<Contribution>, c: Contribution, fid: int)
    ensures Total(rows + [c], fid) == Total(rows, fid) + Share(c, fid)
  {
    MatchingAppend(rows, c, fid);
    if c.fundingId == fid {
      SumAmountsAppend(Matching(rows, fid), c);
    } else {
      assert Matching(rows, fid) + [] == Matching(rows, fid);
    }
  }

  // ---------------------------------------------------------------------
  // Campaign lookup (get_or_404)
  // ---------------------------------------------------------------------

  /** The campaign whose primary key is `fid`, if there is one. */
  function Find(fundings: seq<Funding>, fid: int): (r: Option<Funding>)
    ensures r.Some? <==> exists i :: 0 <= i < |fundings| && fundings[i].id == fid
    ensures r.Some? ==> r.value in fundings && r.value.id == fid
  {
    if fundings == [] then None
    else if fundings[0].id == fid then Some(fundings[0])
    else Find(fundings[1..], fid)
  }

  predicate DistinctIds(fundings: seq<Funding>)
  {
    forall i, j :: 0 <= i < j < |fundings| ==> fundings[i].id != fundings[j].id
  }

  /** With distinct keys, looking a campaign up by its own id finds that campaign. */
  lemma {:induction false} FindLocates(fundings: seq<Funding>, k: int)
    requires DistinctIds(fundings)
    requires 0 <= k < |fundings|
    ensures Find(fundings, fundings[k].id) == Some(fundings[k])
  {
    if k > 0 {
      assert fundings[0].id != fundings[k].id;
      assert fundings[1..][k - 1] == fundings[k];
      FindLocates(fundings[1..], k - 1);
    }
  }

  // ---------------------------------------------------------------------
  // The pledge gate
  // ---------------------------------------------------------------------

  /** What a pledge request answers: 404, a redirect (campaign closed), or success. */
  datatype PledgeOutcome = PledgeNotFound | Redirected | Success

  /** A campaign accepts pledges while its total, before the new pledge, is below its target. */
  predicate IsOpen(rows: seq<Contribution>, f: Funding)
  {
    Total(rows, f.id) < f.target
  }

  /** The row an accepted pledge inserts: next key, this campaign, the form fields, the current tick. */
  function NewRow(rows: seq<Contribution>, f: Funding, name: string, amount: int, message: string,
                  stamp: nat): Contribution
  {
    Contribution(|rows| + 1, f.id, name, amount, message, stamp)
  }

  /** The table after a pledge to campaign `f`. */
  function AfterPledge(rows: seq<Contribution>, f: Funding, name: string, amount: int, message: string,
                       stamp: nat): seq<Contribution>
  {
    if IsOpen(rows, f) then rows + [NewRow(rows, f, name, amount, message, stamp)] else rows
  }

  /** The answer to a pledge request against campaign key `fid`. */
  function Decide(fundings: seq<Funding>, rows: seq<Contribution>, fid: int): PledgeOutcome
  {
    match Find(fundings, fid)
    case None => PledgeNotFound
    case Some(f) => if IsOpen(rows, f) then Success else Redirected
  }

  /** The table after a pledge request against campaign key `fid`. */
  function PledgeRows(fundings: seq<Funding>, rows: seq<Contribution>, fid: int,
                      name: string, amount: int, message: string, stamp: nat): seq<Contribution>
  {
    match Find(fundings, fid)
    case None => rows
    case Some(f) => AfterPledge(rows, f, name, amount, message, stamp)
  }

  /**
   * The gate: a closed campaign's pledge writes nothing; an open campaign's
   * pledge appends exactly one row carrying this campaign's key and the given
   * name, amount and message, and the total grows by exactly that amount,
   * whatever its sign and however far past the target it goes.
   */
  lemma PledgeGate(rows: seq<Contribution>, f: Funding, name: string, amount: int, message: string,
                   stamp: nat)
    ensures !IsOpen(rows, f) ==> AfterPledge(rows, f, name, amount, message, stamp) == rows
    ensures IsOpen(rows, f) ==>
      var after := AfterPledge(rows, f, name, amount, message, stamp);
      |after| == |rows| + 1 && after[..|rows|] == rows
      && after[|rows|].fundingId == f.id && after[|rows|].name == name
      && after[|rows|].amount == amount && after[|rows|].message == message
      && Total(after, f.id) == Total(rows, f.id) + amount
  {
    if IsOpen(rows, f) {
      var row := NewRow(rows, f, name, amount, message, stamp);
      TotalAppend(rows, row, f.id);
      assert (rows + [row])[..|rows|] == rows;
    }
  }

  /** A pledge to one campaign changes neither the rows nor the total of any other. */
  lemma PledgeLeavesOthersAlone(rows: seq<Contribution>, f: Funding, name: string, amount: int,
                                message: string, stamp: nat, other: int)
    requires other != f.id
    ensures Matching(AfterPledge(rows, f, name, amount, message, stamp), other) == Matching(rows, other)
    ensures Total(AfterPledge(rows, f, name, amount, message, stamp), other) == Total(rows, other)
  {
    if IsOpen(rows, f) {
      var row := NewRow(rows, f, name, amount, message, stamp);
      MatchingAppend(rows, row, other);
      assert Matching(rows, other) + [] == Matching(rows, other);
    }
  }

  /**
   * The gate looks only at the total before the pledge and caps nothing: an
   * open campaign that receives more than what is missing ends over its target.
   */
  lemma AcceptedPledgeCanOvershoot(rows: seq<Contribution>, f: Funding, name: string, amount: int,
                                   message: string, stamp: nat)
    requires IsOpen(rows, f)
    requires amount > f.target - Total(rows, f.id)
    ensures |AfterPledge(rows, f, name, amount, message, stamp)| == |rows| + 1
    ensures Total(AfterPledge(rows, f, name, amount, message, stamp), f.id) > f.target
  {
    PledgeGate(rows, f, name, amount, message, stamp);
  }

  // ---------------------------------------------------------------------
  // Sequences of pledge requests
  // ---------------------------------------------------------------------

  /** One submitted pledge form, aimed at campaign key `fundingId`. */
  datatype PledgeRequest = PledgeRequest(fundingId: int, name: string, amount: int, message: string)

  /**
   * The table after the requests are served one after another, starting at
   * clock tick `clock`; the clock advances only when a row is written.
   */
  function Replay(fundings: seq<Funding>, rows: seq<Contribution>, requests: seq<PledgeRequest>,
                  clock: nat): seq<Contribution>
    decreases |requests|
  {
    if requests == [] then rows
    else
      var q := requests[0];
      var next := PledgeRows(fundings, rows, q.fundingId, q.name, q.amount, q.message, clock);
      Replay(fundings, next, requests[1..], if |next| == |rows| then clock else clock + 1)
  }

  /**
   * Closed is absorbing: once a campaign's total has reached its target, no
   * later sequence of pledges (to it or to any other campaign) adds a row to
   * it, so its total never changes again.
   */
  lemma {:induction false} ClosedIsAbsorbing(fundings: seq<Funding>, rows: seq<Contribution>,
                                             requests: seq<PledgeRequest>, clock: nat, f: Funding)
    requires Find(fundings, f.id) == Some(f)
    requires !IsOpen(rows, f)
    ensures Matching(Replay(fundings, rows, requests, clock), f.id) == Matching(rows, f.id)
    ensures Total(Replay(fundings, rows, requests, clock), f.id) == Total(rows, f.id)
    decreases |requests|
  {
    if requests != [] {
      var q := requests[0];
      var next := PledgeRows(fundings, rows, q.fundingId, q.name, q.amount, q.message, clock);
      match Find(fundings, q.fundingId) {
        case None =>
          assert next == rows;
        case Some(g) =>
          if g.id == f.id {
            assert g == f;
            assert next == rows;
          } else {
            PledgeLeavesOthersAlone(rows, g, q.name, q.amount, q.message, clock, f.id);
          }
      }
      assert Matching(next, f.id) == Matching(rows, f.id);
      ClosedIsAbsorbing(fundings, next, requests[1..], if |next| == |rows| then clock else clock + 1, f);
    }
  }
}
