/**
 * The two row shapes of the crowdfunding site's store: a campaign (Funding)
 * and one backer's pledge against it (Contribution).
 *
 * `createdAt` is a tick of a logical clock shared by both tables; it stands in
 * for the UTC timestamp the store assigns when a row is inserted, and only its
 * order matters to the model.
 */
module Records {

  datatype Option<+T> = None | Some(value: T)

  /** A campaign row. `target` is the funding goal in currency units. */
  datatype Funding = Funding(
    id: int,
    title: string,
    productLink: string,
    image: string,
    target: int,
    adminPassword: string,
    bank: string,
    account: string,
    createdAt: nat)

  /** A pledge row; `fundingId` refers to the campaign it was made against. */
  datatype Contribution = Contribution(
    id: int,
    fundingId: int,
    name: string,
    amount: int,
    message: string,
    createdAt: nat)
}
