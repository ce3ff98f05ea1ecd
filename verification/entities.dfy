/** The rows of the marketplace tables and the shapes of the requests and
    responses around them. */
module Entities {
  import opened Wrappers

  /** The lifecycle status of an advertisement. */
  datatype Status = Open | Sold | Reserved

  /** The only statuses the status-change endpoint accepts. */
  datatype StatusChange = MarkSold | MarkReserved

  /** The status a status-change request stores. */
  function ToStatus(c: StatusChange): (s: Status)
    ensures s != Open
    ensures s == Sold <==> c == MarkSold
    ensures s == Reserved <==> c == MarkReserved
  {
    match c
    case MarkSold => Sold
    case MarkReserved => Reserved
  }

  // ---- table rows ----

  datatype User = User(
    username: string,
    email: string,
    hashedPassword: string,
    address: Option<string>,
    phone: Option<string>)

  datatype Category = Category(title: string)

  /** `createdAt` is an opaque, totally ordered timestamp; `price` the
      listing's price, a positive number. */
  datatype Advertisement = Advertisement(
    title: string,
    content: string,
    price: real,
    status: Status,
    createdAt: int,
    owner: int,
    category: int)

  datatype Image = Image(
    order: int,
    originalName: string,
    imageName: string,
    imagePath: string,
    imageType: Option<string>,
    advertisement: int)

  datatype Transaction = Transaction(
    buyer: int,
    seller: int,
    completed: bool,
    createdAt: int,
    advertisement: int)

  /** A rating row; the response of the rating endpoints has the same fields. */
  datatype Rating = Rating(
    transaction: int,
    rater: int,
    ratee: int,
    score: int,
    comment: Option<string>)

  // ---- requests and responses ----

  datatype UserCreate = UserCreate(email: string, password: string, username: string)

  datatype UserOut = UserOut(id: int, username: string, email: string)

  datatype AdvertisementBase = AdvertisementBase(
    title: string,
    content: string,
    price: real,
    status: Status,
    createdAt: int,
    category: int)

  /** An edit request: the fields the client supplied. The owner and the
      creation time are not among them. */
  datatype AdvertisementEdit = AdvertisementEdit(
    title: Option<string>,
    content: Option<string>,
    price: Option<real>,
    status: Option<Status>,
    category: Option<int>)

  /** One supplied field of an edit request. */
  datatype FieldUpdate =
    | SetTitle(title: string)
    | SetContent(content: string)
    | SetPrice(price: real)
    | SetStatus(status: Status)
    | SetCategory(category: int)

  /** Rater and ratee are never part of the request. */
  datatype RatingCreate = RatingCreate(transaction: int, score: int, comment: Option<string>)

  /** Buyer and seller are never part of the request. */
  datatype TransactionCreate = TransactionCreate(advertisement: int, completed: bool)

  datatype TransactionRead = TransactionRead(
    id: int,
    buyer: int,
    seller: int,
    advertisement: int,
    completed: bool,
    createdAt: int)

  /** The response view of transaction row `id`. */
  function ReadOf(id: int, t: Transaction): TransactionRead {
    TransactionRead(id, t.buyer, t.seller, t.advertisement, t.completed, t.createdAt)
  }

  /** An uploaded file as the image endpoint receives it. */
  datatype Upload = Upload(filename: string, contentType: Option<string>)
}
