# Birthday-gift funding site: the campaign ledger

A Dafny model of the crowdfunding site's campaign page. A creator registers a
campaign (Funding) with a target amount and an admin password. Backers pledge
against it (Contribution rows with a name, an amount and a message). The page
handler derives everything it shows from the contribution table on every
request:

- the pledged total, which is the sum of the amounts of the campaign's rows, or 0 when it has none;
- the pledge gate, which accepts a pledge only while the total before it is below the target;
- the progress percentage, clamped at 100;
- the amount still missing, which is not clamped and goes negative when the campaign is over-funded;
- the contribution list, newest first;
- the admin flag, which is an exact comparison of the `admin` query value with the stored password.

Files:

- `records.dfy`: module `Records`, with the two row shapes and `Option`.
- `ledger.dfy`: module `Ledger`, with pure functions over the contribution table: the total, the campaign lookup, the pledge gate, and `Replay` of a sequence of pledge requests. The lemmas about them are here too.
- `view.dfy`: module `DetailView`, with the values the detail page shows and the ordering lemmas for the list.
- `site.dfy`: module `Site`, with class `FundingSite`. It holds both tables and a logical clock. Its `Create` and `Pledge` methods insert rows and are specified by the `Ledger` functions. Four client walkthroughs show what callers can conclude from those contracts alone. One of them is the 400/400/300/1 run against a target of 1000: totals 400, 800 and 1100, and the fourth pledge is turned away.

Modelling decisions:

- A table is a sequence of rows in insertion order. Rows are never updated or deleted, so a key is its position plus one.
- `created_at` is a tick of a logical clock. Each inserted row takes the current tick and the clock then advances. Only the order of the ticks matters.
- The amount comes from an unchecked `int(...)`. It may be zero or negative, and nothing in the model assumes otherwise.
- `get_or_404` is the `PledgeNotFound` outcome of a pledge and the `NotFound` error of a page view.
- The `ZeroDivisionError` that a GET raises for a target of 0 is the `DivisionByZero` error of `DetailPage`. It is not a precondition.
- The redirect of a closed campaign is the `Redirected` outcome. The JSON acknowledgement is `Success`.

## Model

| member | source | states |
|---|---|---|
| Ledger.Matching | app.py:87-89 | the rows selected for a campaign are exactly the table's rows that carry its key, and there are no more of them than rows in the table |
| Ledger.TotalIsSumOfShares | app.py:87-89 | the total (filter by campaign, then SUM) equals the sum over the whole table of each row's amount when its key matches and 0 otherwise |
| Ledger.TotalWithoutRows | app.py:114-116 | a campaign with no rows has total 0 and an empty selection |
| Ledger.TotalAppend | app.py:102-109 | inserting a row raises its own campaign's total by its amount and leaves every other campaign's total unchanged |
| Ledger.Find | app.py:85 | the lookup finds a campaign exactly when some row has that key, and what it finds is a row of the table with that key |
| Ledger.FindLocates | app.py:85 | with distinct keys, looking a campaign up by its key yields that campaign |
| Ledger.PledgeGate | app.py:95-109 | when the total is at or above the target, a pledge leaves the table unchanged; otherwise it appends exactly one row with this campaign's key and the given name, amount and message, keeping every earlier row, and the total grows by exactly the amount |
| Ledger.PledgeLeavesOthersAlone | app.py:102-109 | a pledge to one campaign changes neither the rows nor the total of any other campaign |
| Ledger.AcceptedPledgeCanOvershoot | app.py:95-109 | the gate checks only the total before the pledge and does not cap the amount, so an open campaign given more than what is missing ends strictly above its target |
| Ledger.ClosedIsAbsorbing | app.py:95-96 | once a campaign's total has reached its target, every later sequence of pledges, to it or to other campaigns, leaves its rows and its total as they are |
| DetailView.ListingNewestFirst | app.py:119-121 | over a table in insertion order, the list is strictly newest first, is a permutation of the campaign's rows, and holds exactly the rows that carry the campaign's key |
| DetailView.NewestFirstIsUnique | app.py:119-121 | two strictly newest-first sequences with the same members are equal |
| DetailView.ListingIsOrderByCreatedDesc | app.py:119-121 | any strictly newest-first arrangement of exactly the campaign's rows is the list the model shows, so the list is the result of ordering by creation time, descending |
| DetailView.ListingAppend | app.py:119-121 | a newly inserted row of the campaign appears at the head of its list, above the earlier ones; a row of another campaign does not change the list |
| DetailView.Percent | app.py:123 | the shown percentage never exceeds 100; it is either 100 or the unclamped percentage, and it is 100 exactly when the unclamped value is at least 100 |
| DetailView.PercentOfFunded | app.py:123 | a campaign at or past a positive target shows exactly 100 |
| DetailView.PercentOfPartial | app.py:123 | a campaign with a non-negative total below a positive target shows the floor of 100 * total / target, which lies in 0..99 |
| DetailView.PercentOfNothing | app.py:123 | a campaign with nothing pledged shows 0 |
| DetailView.Remaining | app.py:124 | remaining plus total is the target; remaining is negative exactly when the total exceeds the target and zero exactly when it equals it |
| DetailView.IsAdmin | app.py:91 | the admin flag holds exactly when a query value is present and equals the stored password character by character; an absent value never matches |
| DetailView.DetailPage | app.py:84-124 | an unknown key is a 404; a zero target is a division error; otherwise the page shows the campaign with that key, its total, a percentage of at most 100, remaining equal to target minus total, and the admin flag as exact password equality |
| DetailView.DetailPageListing | app.py:119-121 | over a table in insertion order, the page lists exactly the campaign's rows, strictly newest first |
| Site.FundingSite.constructor | app.py:141-142 | the store starts with both tables empty |
| Site.FundingSite.Create | app.py:66-76 | a new campaign is appended with the next key and the submitted fields, the target stored as given; it is found by that key, it has no contributions, and its page (for a non-zero target) shows total 0, 0 percent and the whole target remaining |
| Site.FundingSite.Pledge | app.py:85-109 | an unknown key writes nothing; otherwise the table afterwards is what the gate makes of it (so, by PledgeLeavesOthersAlone, no other campaign's rows change); the campaign table is unchanged, so no target ever changes; the clock advances and the total grows by the amount only on success; the store invariant (keys, references to existing campaigns, creation order) is kept |
| Site.InsertKeepsInvariant | app.py:102-109 | inserting the row of an accepted pledge keeps the keys consecutive, keeps every row referring to an existing campaign and keeps the table in creation order |
| Site.NewCampaignIsEmpty | app.py:66-76 | the newest campaign is found by its key, has total 0 and an empty list, and for a non-zero target its page shows total 0, 0 percent and the whole target remaining |
| Site.EmptyCampaignPage | app.py:114-124 | the page of a campaign without contributions shows total 0, 0 percent, the whole target remaining and an empty list |
| Site.WalkthroughFigures | app.py:123-124 | against a target of 1000 the page shows 40, 80 and 100 percent for totals 400, 800 and 1100, with 600, 200 and -100 remaining |

## Left out

- HTTP routing, `redirect`, `url_for`, `jsonify`, `render_template` and the root redirect are not modelled. Outcome and page values stand in for the responses.
- The ORM session, `commit` and query machinery are not modelled. Each table is a sequence held by `FundingSite`.
- The image upload and the file write are not modelled. A campaign records only the file name it was given.
- Missing form fields and non-numeric `int(...)` input are not modelled. They are library exceptions raised before any row is written.
- Real `datetime.utcnow` timestamps are replaced by a logical clock. Only their order is used.
- Concurrent pledges are not modelled. Each request runs to completion before the next, so the check-then-insert race between two pledges cannot occur in the model.
- Column length limits (`String(50)` and so on) and the store's 64-bit limit on integers and sums are not modelled. Amounts and totals are unbounded integers.
- DetailView.Percent: the value before the clamp is the exact quotient `100 * total / target`, truncated toward zero. The source computes `int((total / target) * 100)` in floating point. That can come out one lower at exact multiples: 29/100*100 is 28.999…, which shows as 28. For totals just below a very large target it can also round up to 100.
- DetailView.PercentOfPartial: holds for the exact quotient only. The floating-point rounding described above is not modelled.
- DetailView.DetailPage: the admin flag is also computed on the pledge path, but nothing uses it there, so it is modelled only on the page.
