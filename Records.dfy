/**
 * The rows the front end receives from the database: gift ideas and giftees, with
 * optional columns as `Option`, and the partial updates it sends for an idea.
 */
module Records {
  import opened Wrappers

  /** A `purchased_at` value as stored: an ISO timestamp string. */
  type Timestamp = string

  /** The nested `giftees (id, name, …)` selection of an idea row. */
  datatype GifteeRef = GifteeRef(id: string, name: string)

  datatype Idea = Idea(
    id: string,
    gifteeId: string,
    name: string,
    url: Option<string>,
    purchasedAt: Option<Timestamp>,
    purchasedFor: Option<string>,
    rating: Option<int>,
    giftee: Option<GifteeRef>)

  datatype Giftee = Giftee(
    id: string,
    name: string,
    dateOfBirth: Option<string>,
    bio: Option<string>,
    phoneNumber: Option<string>,
    onChristmas: Option<bool>,
    onBirthday: Option<bool>,
    ideas: Option<seq<Idea>>)

  /** The partial updates the pages send for an idea. */
  datatype IdeaPatch =
    | SetPurchasedAt(at: Option<Timestamp>)
    | SetRating(rating: int)
    | SetUrl(url: string)

  /** The row an update returns when the database applies the patch: only the named column changes. */
  function ApplyPatch(i: Idea, p: IdeaPatch): (r: Idea)
    ensures r.id == i.id && r.gifteeId == i.gifteeId && r.name == i.name
    ensures r.purchasedFor == i.purchasedFor && r.giftee == i.giftee
    ensures r.purchasedAt == (if p.SetPurchasedAt? then p.at else i.purchasedAt)
    ensures r.rating == (if p.SetRating? then Some(p.rating) else i.rating)
    ensures r.url == (if p.SetUrl? then Some(p.url) else i.url)
  {
    match p
    case SetPurchasedAt(at) => i.(purchasedAt := at)
    case SetRating(n) => i.(rating := Some(n))
    case SetUrl(u) => i.(url := Some(u))
  }
}
