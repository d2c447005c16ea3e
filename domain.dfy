/** The rows of the booking server's tables and the session principal.
    Booking dates are day numbers; `created_at` and token expiries are
    millisecond timestamps; money is an integer amount. */
module Domain {
  import opened Common

  /** `role` column: 'user' | 'admin'. */
  datatype Role = UserRole | AdminRole

  /** `status` column of `bookings`. */
  datatype Status = Pending | Confirmed | Cancelled | Completed

  /** `booking_type` column of `bookings`. */
  datatype BookingType = TicketBooking | HotelBooking

  datatype Booking = Booking(
    id: int,
    userId: int,
    bookingType: BookingType,
    checkIn: Option<int>,
    checkOut: Option<int>,
    roomTypeId: Option<int>,
    ticketId: Option<int>,
    quantity: int,
    status: Status,
    totalPrice: int,
    stripeSessionId: Option<string>,
    createdAt: int)

  datatype RoomType = RoomType(
    id: int,
    hotelId: int,
    name: string,
    description: Option<string>,
    pricePerNight: int,
    totalRooms: int)

  /** `kind` is the `type` column. */
  datatype Ticket = Ticket(id: int, kind: string, price: int, description: Option<string>)

  datatype Hotel = Hotel(id: int, name: string, description: Option<string>, imageUrl: Option<string>)

  /** A stored password hash; bcrypt's salt is not modelled, so hashing is a
      constructor and checking a password is comparing hashes. */
  datatype PasswordHash = Bcrypt(secret: string)

  function Hash(password: string): PasswordHash
  {
    Bcrypt(password)
  }

  predicate PasswordMatches(password: string, hash: PasswordHash)
  {
    hash == Hash(password)
  }

  datatype User = User(
    id: int,
    email: string,
    password: PasswordHash,
    name: string,
    role: Role,
    resetToken: Option<string>,
    resetTokenExpires: Option<int>,
    createdAt: int)

  /** What `req.session.user` and `req.user` hold. */
  datatype SessionUser = SessionUser(id: int, email: string, role: Role)

  datatype GalleryImage = GalleryImage(id: int, filename: string, uploadedBy: int, createdAt: int)

  /** `SELECT * ... WHERE id = ?` on a table keyed by id: `null` when absent. */
  function Lookup<T>(m: map<int, T>, id: int): (r: Option<T>)
    ensures r.Some? <==> id in m
    ensures r.Some? ==> r.value == m[id]
  {
    if id in m then Some(m[id]) else None
  }
}
