# Zoo booking platform — a verified model

This project models the core of the zoo's web platform. On the server
(an express application over a relational database) that core is:

- the hotel booking engine:
  - the room-availability count;
  - booking creation with its validation, price and availability gate;
  - cancellation;
  - the status changes made by administrators and by the payment webhook.
- the catalogue and account tables, with their partial-update rules;
- the password-reset token lifecycle and the duplicate e-mail checks;
- the `requireAuth` / `requireAdmin` guards;
- the upload allowlist of the gallery.

On the client it covers:

- the shopping cart;
- the ticket quantity stepper;
- the form validators;
- the gallery lightbox.

## How the model is built

- **Tables.** Each database table is a class holding `rows: map<int, Row>` keyed by id and `nextId`, the auto-increment counter.
  - What a query selects, and what an `UPDATE` does to the rows, are functions over the map.
  - The methods that write a table ensure that the new `rows` equals one of those functions applied to the old rows.
  - Lemmas state what those functions mean: capacity is kept, a token is found or gone, e-mails stay unique, listings hold exactly the stored rows.
- **Route handlers.** Each handler is a method taking a `Request` object (the session user and `req.user`) and the tables. It answers `Ok(code, value)` or `Fail(code, error)` with the source's status codes and messages.
  - Its contract gives every error answer, with its code and message, under the conditions that reach it in the handler's order.
  - Two handlers do this through the pure decision they delegate to: `POST /bookings` through `PlanBooking` and `POST /login` through `Authenticate`.
  - It says exactly when the handler succeeds: by an if-and-only-if, or by cases that cover every input.
  - It says what the tables hold afterwards, and that they are unchanged on failure.
- **Dates, money and time.**
  - Booking dates are integer day numbers, and money is an integer.
  - Timestamps (`created_at`, token expiry, "now") are integer milliseconds, passed in as parameters.
- **Outside components as parameters.**
  - bcrypt is a deterministic `Hash` constructor.
  - The random reset token, the upload file-name suffix and the checkout session id from the payment gateway are parameters.
  - A webhook event whose signature failed to verify is `None`.
- **Quirks modelled as written, with lemmas exhibiting them:**
  - a booking counts once against capacity whatever its quantity;
  - a ticket booking carrying a room type and dates skips the availability gate;
  - the webhook confirms even a cancelled booking;
  - administrators may set any booking status;
  - an administrator may give one account another account's e-mail.
- **The client cart.** The cart is a class whose `items` sequence the five cart operations replace. Item ids are a structured key.
- **The lightbox.** The lightbox is a class with the open index and the page's scroll lock.

## Model

| member | source | states |
|---|---|---|
| AuthMiddleware.Decide | server/src/middleware/auth.ts:3-23 | the request passes exactly when there is a session user and, for the admin guard, that user is an admin; 401 "Authentication required" without a session, 403 "Admin access required" for a non-admin |
| AuthMiddleware.RequireAuth | server/src/middleware/auth.ts:3-10 | lets a session user through and copies it to `req.user`; without one answers 401 and leaves `req.user` untouched |
| AuthMiddleware.RequireAdmin | server/src/middleware/auth.ts:12-23 | 401 without a session, 403 for a non-admin; whatever it admits `requireAuth` also admits; on success `req.user` is the session user |
| Domain.Lookup | server/src/database/models/Ticket.ts:15-21 | a by-id read is null exactly when no row has that id, and otherwise is that row |
| RoomTypeModel.OverlapsIffSharedNight | server/src/database/models/RoomType.ts:36-38 | the overlap test `check_in < out && check_out > in` holds exactly when the two half-open stays share a night, so a stay ending on day n does not block one starting on day n |
| RoomTypeModel.BookedCount | server/src/database/models/RoomType.ts:32-41 | the booked count is at most the number of rows in the bookings table, and it is zero exactly when no row blocks the room type for the range |
| RoomTypeModel.CheckAvailability | server/src/database/models/RoomType.ts:28-43 | an unknown room type has 0 free rooms; the result is never negative and never above `total_rooms`; when positive it is `total_rooms` minus the number of active overlapping rows, and it is 0 for a known room type only when those rows reach `total_rooms` |
| RoomTypeModel.BookedCountInsert | server/src/database/models/RoomType.ts:32-41 | a new row raises the count by one exactly when it is an active overlapping row of that room type, whatever its quantity |
| RoomTypeModel.BookedCountReplace | server/src/database/models/RoomType.ts:32-41 | replacing a row changes the count by what the old row and the new row each contribute |
| RoomTypeModel.AvailabilityAfterInsert | server/src/database/models/RoomType.ts:32-42 | a new non-blocking row (another room type, a non-overlapping range, a cancelled or completed status) leaves availability unchanged; a blocking row lowers it by at most one and never raises it |
| RoomTypeModel.AvailabilityAfterRelease | server/src/database/models/RoomType.ts:33-35 | moving a row to a status that holds no room never lowers availability, and frees exactly one room when the row blocked the range and the count was within capacity |
| RoomTypeModel.OccupancyAtMostBooked | server/src/database/models/RoomType.ts:32-41 | every active row covering a night of the range is among the rows the availability query counts |
| RoomTypeModel.InsertKeepsCapacity | server/src/database/models/RoomType.ts:28-43 | inserting a row for a range that has at least one room free keeps every night of every room type within capacity |
| RoomTypeModel.ReleaseKeepsCapacity | server/src/database/models/RoomType.ts:33-35 | moving a row to cancelled or completed keeps every night within capacity |
| RoomTypeModel.GetByHotel | server/src/database/models/RoomType.ts:13-18 | the result is sorted by price per night ascending and is a permutation of that hotel's room types |
| RoomTypeModel.GetByHotelExactly | server/src/database/models/RoomType.ts:13-18 | a room type is listed exactly when it is stored and belongs to that hotel |
| RoomTypeModel.RoomTypeTable.UpdateRoomType | server/src/database/models/RoomType.ts:45-73 | only the supplied columns of that row change, other rows stay as they were, and with no column supplied or an unknown id nothing changes |
| BookingModel.IdOrNull | server/src/database/models/Booking.ts:46-54 | an absent or zero id is stored as null, any other id as given |
| BookingModel.InsertedRow | server/src/database/models/Booking.ts:39-57 | the inserted row is pending under the given id and time, carries the given owner, type, dates and price, stores a missing or zero quantity as 1, absent or zero ids as null, and a session id only when one is given |
| BookingModel.WithStatus | server/src/database/models/Booking.ts:111-113 | only the status of that row changes; other columns and rows are unchanged; an unknown id changes nothing |
| BookingModel.WithSessionId | server/src/database/models/Booking.ts:127-131 | only `stripe_session_id` of that row changes |
| BookingModel.GetByUser | server/src/database/models/Booking.ts:59-73 | the result is newest first and is a permutation of that user's rows |
| BookingModel.GetByUserExactly | server/src/database/models/Booking.ts:59-73 | a booking is listed exactly when it is stored and belongs to that user |
| BookingModel.GetAll | server/src/database/models/Booking.ts:94-109 | the result is newest first and is a permutation of all rows |
| BookingModel.GetByStripeSessionId | server/src/database/models/Booking.ts:119-125 | finds a stored row carrying that session id, or null when no row carries it |
| BookingModel.BookingTable.Create | server/src/database/models/Booking.ts:39-57 | one pending row is added under a fresh id; every existing row is unchanged |
| BookingModel.BookingTable.UpdateStatus | server/src/database/models/Booking.ts:111-113 | the rows become the old rows with that row's status changed |
| BookingModel.BookingTable.UpdateStripeSessionId | server/src/database/models/Booking.ts:127-131 | the rows become the old rows with that row's session id set |
| BookingModel.BookingTable.Delete | server/src/database/models/Booking.ts:115-117 | exactly the row with that id is removed |
| BookingRoutes.RequestedQuantity | server/src/routes/booking.ts:107-109 | a positive parsed quantity is used as is; an absent, non-numeric or non-positive one becomes 1 |
| BookingRoutes.PlanBooking | server/src/routes/booking.ts:99-157 | each guard in the handler's order with its exact code and message: 400 "Invalid booking type", 400 "Quantity must be at least 1", then the ticket path's 400 and 404, or the hotel path's 400, 404, the availability gate's 400 before the nights check's 400; a request is accepted exactly when it passes them all, with the caller as owner, the body's dates and ids passed through, and price × quantity or price per night × nights × quantity |
| BookingRoutes.TicketPlan | server/src/routes/booking.ts:116-129 | 400 without a ticket id or quantity, 404 for an unknown ticket, otherwise a ticket booking priced at the ticket's price × quantity |
| BookingRoutes.HotelPlan | server/src/routes/booking.ts:130-157 | 400 without a room type or both dates, 404 for an unknown room type, 400 when fewer rooms are free than requested, then 400 for fewer than one night; otherwise a hotel booking priced at price per night × nights × quantity |
| BookingRoutes.AcceptedHotelBookingKeepsCapacity | server/src/routes/booking.ts:141-168 | inserting an accepted hotel booking keeps every night of every room type within capacity |
| BookingRoutes.HotelBookingTakesOneRoom | server/src/routes/booking.ts:141-168 | an accepted hotel booking lowers the availability of its own range by exactly one room, whatever quantity it asked for |
| BookingRoutes.FullRoomTypeRefuses | server/src/routes/booking.ts:141-145 | once the active overlapping rows reach `total_rooms`, any further well-formed hotel request for the range gets 400 "No rooms available for the selected dates" |
| BookingRoutes.TicketsHaveNoCeiling | server/src/routes/booking.ts:116-128 | a request for a known ticket with a valid quantity is accepted whatever the bookings hold, at price × quantity |
| BookingRoutes.TicketBookingCanOverfillRooms | server/src/routes/booking.ts:159-168 | a ticket booking carrying a room type and dates is stored with them and counted by the availability query; starting within capacity it can overfill a room type |
| BookingRoutes.AdjacentStaysDoNotCompete | server/src/database/models/RoomType.ts:36-38 | a stay ending on day n leaves the availability of a stay starting on day n unchanged |
| BookingRoutes.CancelKeepsCapacity | server/src/routes/booking.ts:237-242 | the status change made by cancelling keeps every night within capacity |
| BookingRoutes.CancelFreesRoom | server/src/routes/booking.ts:237-242 | cancelling a booking that held a room for a range frees exactly one room for that range |
| BookingRoutes.OneRoomScenario | server/src/routes/booking.ts:141-168 | with one room, a second identical request is refused while the first booking is pending, and accepted at the same price once the first is cancelled |
| BookingRoutes.Availability | server/src/routes/booking.ts:57-95 | 400 for ids that do not parse, 400 for a missing date, 404 for a room type that is not this hotel's; otherwise the room type, the free rooms of the range and the check-in and check-out dates as given |
| BookingRoutes.ListHotels | server/src/routes/booking.ts:10-18 | answers every hotel with its room types |
| BookingRoutes.ShowHotel | server/src/routes/booking.ts:20-39 | 400 for an id that does not parse, 404 for an unknown hotel, otherwise that hotel with exactly the room-type list `getByIdWithRoomTypes` builds: its own room types, cheapest first |
| BookingRoutes.ListRooms | server/src/routes/booking.ts:41-55 | 400 for an id that does not parse, otherwise that hotel's room types, cheapest first |
| BookingRoutes.PostBooking | server/src/routes/booking.ts:97-180 | 401 without a session; otherwise every guard of `PlanBooking` answers with its code and message and changes nothing; an accepted one inserts exactly one pending row owned by the caller, answers 201 with it, advances the id counter by one and leaves every other row alone |
| BookingRoutes.ListBookings | server/src/routes/booking.ts:182-190 | the caller's own bookings, newest first |
| BookingRoutes.ShowBooking | server/src/routes/booking.ts:192-216 | 400, then 404, then 403 unless the caller owns the booking or is an admin; otherwise the booking |
| BookingRoutes.CancelBooking | server/src/routes/booking.ts:218-253 | the guards of the read, then 400 for a booking already cancelled; any other status, completed included, becomes cancelled and nothing else changes |
| StripeRoutes.CreateCheckout | server/src/routes/stripe.ts:16-83 | 401, 400 for a missing id or URL, 404, 403 for anyone but the owner (admins included), 400 unless pending, 500 when the gateway opens no session; success records the session id on that booking only, failure changes nothing |
| StripeRoutes.WebhookEffect | server/src/routes/stripe.ts:106-135 | a completion event confirms the referenced booking whatever its status, an expiry cancels it, and an event without a booking id or of another type changes nothing |
| StripeRoutes.Webhook | server/src/routes/stripe.ts:85-139 | 500 without the keys, 400 when the signature fails with nothing changed; a verified event is acknowledged with 200 after its effect is applied |
| StripeRoutes.WebhookKeepsCapacityUnlessReviving | server/src/routes/stripe.ts:106-135 | an expiry event keeps capacity, and so does a completion event for a booking that still holds its room |
| StripeRoutes.LateCompletionRevivesCancelled | server/src/routes/stripe.ts:108-117 | a completion event for a booking the user cancelled revives it, and overfills a room type whose room was booked again |
| AdminRoutes.ParseStatus | server/src/routes/admin.ts:95-99 | accepts exactly the four status names and refuses anything else |
| AdminRoutes.ParseStatusAcceptsEveryName | server/src/routes/admin.ts:95-99 | every status is accepted under its own name |
| AdminRoutes.ParseRole | server/src/routes/admin.ts:29-37 | a role is passed on exactly when it names a role |
| AdminRoutes.ListUsers | server/src/routes/admin.ts:11-19 | behind the admin guard, every account without secrets, newest first |
| AdminRoutes.UpdateUser | server/src/routes/admin.ts:21-48 | guard, 400, 404; otherwise the truthy name and e-mail and a given role are written to that row only, and the answer is the row as stored now |
| AdminRoutes.AdminEditCanDuplicateEmail | server/src/routes/admin.ts:21-48 | an administrator's edit can give one account another account's e-mail |
| AdminRoutes.DeleteUser | server/src/routes/admin.ts:50-75 | guard, 400, 400 "Cannot delete your own account" for the caller's own id, 404; otherwise exactly that row goes |
| AdminRoutes.ListAllBookings | server/src/routes/admin.ts:77-85 | behind the admin guard, every booking, newest first |
| AdminRoutes.UpdateBooking | server/src/routes/admin.ts:87-118 | guard, 400 for the id, 400 for a status outside the four names, 404; otherwise only that booking's status changes, whatever it was |
| AdminRoutes.AdminRevivalCountsAgain | server/src/routes/admin.ts:95-107 | an administrator can set a cancelled stay back to confirmed with no capacity check, and it then counts against its range again, one row more than before |
| AdminRoutes.DeleteBooking | server/src/routes/admin.ts:120-140 | guard, 400, 404 with no change; otherwise exactly that booking goes |
| AdminRoutes.UpdateTicket | server/src/routes/admin.ts:142-169 | guard, 400, 404; otherwise only that ticket changes, to the supplied price and description, the stored row is the one answered, and no booking is touched |
| AdminRoutes.CreateTicket | server/src/routes/admin.ts:171-195 | guard, 400 unless the type is truthy and a price is given; otherwise one new ticket, a falsy description stored as null, answered with 201 |
| AdminRoutes.DeleteTicket | server/src/routes/admin.ts:197-217 | guard, 400, 404; otherwise exactly that ticket goes |
| TicketModel.GetAll | server/src/database/models/Ticket.ts:11-13 | the result is sorted by price ascending and is a permutation of the stored tickets |
| TicketModel.GetAllExactly | server/src/database/models/Ticket.ts:11-13 | a ticket is listed exactly when it is stored |
| TicketModel.DescriptionOrNull | server/src/database/models/Ticket.ts:49-55 | a falsy description becomes null; a truthy one is kept |
| TicketModel.TicketTable.UpdatePrice | server/src/database/models/Ticket.ts:23-25 | only that ticket's price changes |
| TicketModel.TicketTable.Update | server/src/database/models/Ticket.ts:27-47 | exactly the supplied columns are written, a price of 0 included; with none supplied nothing changes |
| TicketModel.TicketTable.Create | server/src/database/models/Ticket.ts:49-55 | one ticket under a fresh id, a falsy description stored as null |
| TicketModel.TicketTable.Delete | server/src/database/models/Ticket.ts:57-59 | exactly that ticket is removed |
| HotelModel.NameOrderIsTotal | server/src/database/models/Hotel.ts:16-18 | ordering by name is a total preorder |
| HotelModel.GetAll | server/src/database/models/Hotel.ts:16-18 | sorted by name and a permutation of the stored hotels |
| HotelModel.GetAllHoldsEveryHotel | server/src/database/models/Hotel.ts:16-18 | a hotel is in the list exactly when it is stored |
| HotelModel.GetById | server/src/database/models/Hotel.ts:20-26 | null exactly for an unknown id, otherwise that hotel |
| HotelModel.RoomTypesByPrice | server/src/database/models/Hotel.ts:29-32 | every room type, sorted by price per night ascending |
| HotelModel.OwnRoomTypes | server/src/database/models/Hotel.ts:34-37 | exactly the room types whose hotel id is that hotel's, as often as in the full list, and still cheapest first when the full list is |
| HotelModel.GetAllWithRoomTypes | server/src/database/models/Hotel.ts:28-38 | the hotels in name order, each with exactly the room types whose hotel id is its id, cheapest first |
| HotelModel.ListsEveryHotel | server/src/database/models/Hotel.ts:34-37 | a hotel is listed exactly when it is stored |
| HotelModel.ListsHotelsOnce | server/src/database/models/Hotel.ts:34-37 | no hotel is listed twice |
| HotelModel.NoRoomTypesEmptyList | server/src/database/models/Hotel.ts:34-37 | a hotel that owns no room type is listed with an empty list |
| HotelModel.GetByIdWithRoomTypes | server/src/database/models/Hotel.ts:40-53 | null exactly for an unknown hotel, otherwise that hotel with only its own room types, cheapest first |
| HotelModel.ByIdAgreesWithListing | server/src/database/models/Hotel.ts:40-53 | a hotel read by id has the same room types as its entry in the full listing |
| UserModel.FindByEmail | server/src/database/models/User.ts:18-24 | finds a stored account with that e-mail, or none when no account has it |
| UserModel.FindByEmailFindsStored | server/src/database/models/User.ts:18-24 | on a keyed table, an account is found exactly when some stored account has that e-mail, and it is the stored row |
| UserModel.OnlyHolderIsFound | server/src/database/models/User.ts:18-24 | the only account holding an e-mail is the one found for it |
| UserModel.FindById | server/src/database/models/User.ts:26-32 | null exactly for an unknown id; otherwise every column of the account except its password: id, e-mail, name, role, reset token and its expiry, creation time |
| UserModel.GetAll | server/src/database/models/User.ts:73-77 | every account's summary without password or token, newest first |
| UserModel.FindByResetToken | server/src/database/models/User.ts:92-98 | finds an account holding the token with an expiry strictly after now, or none when no account does |
| UserModel.WithResetToken | server/src/database/models/User.ts:84-90 | every account with that e-mail gets the token and expiry; every other row is unchanged |
| UserModel.WithoutResetToken | server/src/database/models/User.ts:100-105 | token and expiry of that account become null; every other row is unchanged |
| UserModel.WithPassword | server/src/database/models/User.ts:79-82 | that account stores the hash of the new password; every other row is unchanged |
| UserModel.StoredTokenIsFound | server/src/database/models/User.ts:84-98 | a token just stored for a known e-mail, expiring after now, is found |
| UserModel.ClearedTokenIsGone | server/src/database/models/User.ts:100-105 | once the only holder of a token has it cleared, the token finds nobody |
| UserModel.Edited | server/src/database/models/User.ts:43-67 | only the truthy name and e-mail and a given role are written, on that row only; with none of them nothing changes |
| UserModel.CreateKeepsEmailsUnique | server/src/database/models/User.ts:34-41 | creating an account for an e-mail nobody has keeps e-mails unique |
| UserModel.UserTable.Create | server/src/database/models/User.ts:34-41 | one new account under a fresh id, with role user, the hash of the password and no reset token |
| UserModel.UserTable.Update | server/src/database/models/User.ts:43-67 | the rows become the edit of the old rows |
| UserModel.UserTable.Delete | server/src/database/models/User.ts:69-71 | exactly that account is removed |
| UserModel.UserTable.UpdatePassword | server/src/database/models/User.ts:79-82 | only that account's password hash changes |
| UserModel.UserTable.SetResetToken | server/src/database/models/User.ts:84-90 | reports true exactly when some account has that e-mail, and gives the token to every such account |
| UserModel.UserTable.ClearResetToken | server/src/database/models/User.ts:100-105 | only that account's token and expiry become null |
| AuthRoutes.Authenticate | server/src/routes/auth.ts:52-67 | 400 unless e-mail and password are truthy; the same 401 for an unknown e-mail and a wrong password; the account found is accepted when its password matches |
| AuthRoutes.Register | server/src/routes/auth.ts:7-46 | 400 for a missing field, 409 for a known e-mail with no account created; otherwise one new user account, at the next id, which advances the id counter by one; its id, e-mail and role become the session, answered with 201 |
| AuthRoutes.Login | server/src/routes/auth.ts:48-88 | answers as `Authenticate` decides; success puts that account into the session; a refusal leaves the session alone |
| AuthRoutes.Logout | server/src/routes/auth.ts:90-99 | a destroyed session answers 200 and clears the session; a failure answers 500 and keeps it |
| AuthRoutes.Me | server/src/routes/auth.ts:101-122 | 401 without a session, 404 when the account is gone, otherwise the account as stored now |
| AuthRoutes.RegisteredUserCanLogIn | server/src/routes/auth.ts:22-73 | after registering, a login with the same e-mail finds the new account, and the given password matches its hash |
| AuthRoutes.InsertedIsOnlyHolder | server/src/routes/auth.ts:16-30 | a new account whose e-mail nobody had is that e-mail's only holder |
| AuthRoutes.AcceptsOnlyHolder | server/src/routes/auth.ts:52-73 | the only account holding an e-mail logs in with its own password |
| AuthRoutes.WrongPasswordRefused | server/src/routes/auth.ts:58-67 | a wrong password gets 401, whoever owns the e-mail |
| PasswordRoutes.RequestReset | server/src/routes/password.ts:8-37 | 400 without an e-mail; 200 with no change for an unknown e-mail; otherwise every account with that e-mail gets the token, expiring one hour after now |
| PasswordRoutes.AfterReset | server/src/routes/password.ts:55-56 | that account stores the new password's hash and loses its token; every other row is unchanged |
| PasswordRoutes.ResetWithToken | server/src/routes/password.ts:39-63 | 400 without a new password, 400 with no change for an invalid or expired token; otherwise the holder gets the new password and loses the token |
| PasswordRoutes.ChangePassword | server/src/routes/password.ts:65-93 | 401, 400 for a missing field, 404, 401 with no change for a wrong current password; otherwise that account stores the new password |
| PasswordRoutes.TokenValidForOneHour | server/src/routes/password.ts:23-26 | a newly issued token is accepted exactly while the clock is before one hour after issue |
| PasswordRoutes.TokenWorksOnce | server/src/routes/password.ts:55-56 | after a reset the token finds nobody at any later time, unless another account holds the same token |
| PasswordRoutes.ResetPasswordLogsIn | server/src/routes/password.ts:55-56 | after a reset, the account logs in with the new password |
| PasswordRoutes.SharedEmailKeepsTokenAlive | server/src/routes/password.ts:23-26 | when two accounts share an e-mail, both get the token, and after one reset the other can still use it |
| UserRoutes.GetProfile | server/src/routes/user.ts:9-30 | 401 without a session, 404 when the account is gone, otherwise the stored account |
| UserRoutes.UpdateProfile | server/src/routes/user.ts:32-75 | 401; 400 unless name or e-mail is truthy; 409 with no change when the e-mail belongs to someone else; otherwise the edit, with the session refreshed only when an e-mail was sent |
| UserRoutes.ProfileEditKeepsEmailsUnique | server/src/routes/user.ts:41-46 | an edit that passed the 409 guard keeps e-mails unique |
| FilesRoutes.ExtName | server/src/routes/files.ts:21 | the extension is the suffix from the last dot, and it is empty exactly when no dot follows the first character or the name is `..` |
| FilesRoutes.Accepts | server/src/routes/files.ts:29-38 | an accepted file has one of the five MIME types and a name ending, after lower-casing, in one of the five extensions with something before it |
| FilesRoutes.Lower | server/src/routes/files.ts:30 | lower-cases each character and keeps the length |
| FilesRoutes.ExtensionMatchIgnoresCase | server/src/routes/files.ts:26-38 | a non-empty base name with an allowed extension, in any letter case, is accepted exactly when the MIME type is one of the five |
| FilesRoutes.NoExtensionRefused | server/src/routes/files.ts:29-38 | a name without any dot is refused |
| FilesRoutes.UpperCaseExtensionAccepted | server/src/routes/files.ts:30-33 | `.JPG` is accepted like `.jpg` |
| FilesRoutes.MimeTypeCaseMatters | server/src/routes/files.ts:31-33 | the MIME type must match exactly, letter case included |
| FilesRoutes.DotFileRefused | server/src/routes/files.ts:29-38 | a name that is only an extension has no extension and is refused |
| FilesRoutes.LastExtensionDecides | server/src/routes/files.ts:29-38 | only the last extension counts |
| FilesRoutes.Upload | server/src/routes/files.ts:58-82 | admin guard; a file the allowlist refuses, or one over 10 MiB, answers 500; no file answers 400 with no row created; otherwise one row for the stored file, uploaded by the caller, at the next id, which advances the id counter by one |
| FilesRoutes.DeleteImage | server/src/routes/files.ts:84-110 | admin guard, 400 for an id that does not parse, 404 for an unknown image; otherwise exactly that row goes |
| GalleryImageModel.GalleryTable.Create | server/src/database/models/GalleryImage.ts:16-22 | one new row under a fresh id |
| GalleryImageModel.GalleryTable.Delete | server/src/database/models/GalleryImage.ts:41-43 | exactly that row is removed |
| CartContext.Without | client/src/contexts/CartContext.tsx:160-162 | keeps exactly the items with another id, each as often as before, and no item with that id remains |
| CartContext.WithoutKeepsOrder | client/src/contexts/CartContext.tsx:160-162 | the kept items stay in cart order: an empty cart stays empty, and a last item stays last exactly when its id differs |
| CartContext.WithTicket | client/src/contexts/CartContext.tsx:89-106 | a ticket already in the cart gets the added quantity and keeps its first snapshot, with no item added; a new ticket is appended |
| CartContext.WithTicketQuantity | client/src/contexts/CartContext.tsx:108-121 | at zero or below the result is the cart without the ticket's items; above zero every item keeps its place, the ticket's items become that ticket with the new quantity, and other items are unchanged |
| CartContext.ItemCount | client/src/contexts/CartContext.tsx:75-77 | with no negative quantity every item counts at least once, a zero quantity counting as one |
| CartContext.Total | client/src/contexts/CartContext.tsx:79-87 | the total is not negative when no item's share is, and 0 when every share is 0 |
| CartContext.WithHotel | client/src/contexts/CartContext.tsx:123-158 | the same room type and dates merge into one item; a new stay is appended with quantity 1 by default |
| CartContext.AppendAddsShare | client/src/contexts/CartContext.tsx:75-87 | the item count and the total are sums over the items: a zero quantity counts as one, a ticket adds price × quantity, a stay adds price per night × nights × quantity |
| CartContext.BumpCount | client/src/contexts/CartContext.tsx:75-77 | raising the only item of a key by a non-negative amount raises the item count by that amount |
| CartContext.AddTicketCount | client/src/contexts/CartContext.tsx:89-106 | adding a ticket raises the item count by the amount added |
| CartContext.SameKeysStayUnique | client/src/contexts/CartContext.tsx:91-99 | a change that keeps every item's id keeps ids unique |
| CartContext.AppendNewKeyStaysUnique | client/src/contexts/CartContext.tsx:101-104 | appending an item with a new id keeps ids unique |
| CartContext.WithoutStaysUnique | client/src/contexts/CartContext.tsx:160-162 | removing items keeps ids unique |
| CartContext.OperationsKeepKeysUnique | client/src/contexts/CartContext.tsx:89-162 | every cart operation keeps the ids unique, so the cart never holds two items for one ticket or one stay |
| CartContext.Cart.constructor | client/src/contexts/CartContext.tsx:53 | the cart starts empty |
| CartContext.Cart.AddTicket | client/src/contexts/CartContext.tsx:89-106 | the items become the items with the ticket added, an undefined quantity counting as 1 |
| CartContext.Cart.SetTicketQuantity | client/src/contexts/CartContext.tsx:108-121 | the items become the items with the ticket's quantity set or the ticket removed |
| CartContext.Cart.AddHotel | client/src/contexts/CartContext.tsx:123-158 | the items become the items with the stay added or merged |
| CartContext.Cart.RemoveItem | client/src/contexts/CartContext.tsx:160-162 | the items become the items without that id |
| CartContext.Cart.Clear | client/src/contexts/CartContext.tsx:164 | the cart becomes empty |
| BookPage.Selected | client/src/pages/Book.tsx:27-35 | every ticket item gives an entry with its ticket and quantity, and every entry comes from a ticket item |
| BookPage.SelectedInCartOrder | client/src/pages/Book.tsx:27-35 | one entry per ticket item, in cart order: the ticket item at position i is the entry after the ticket items before it, and there are as many entries as ticket items |
| BookPage.SelectedQuantity | client/src/pages/Book.tsx:37-40 | a quantity other than 0 is that of a ticket item with that id, and a ticket not in the cart shows 0 |
| BookPage.SteppedKeepsOtherItems | client/src/pages/Book.tsx:42-50 | a press of the stepper keeps every item of another id and adds none |
| BookPage.TotalPrice | client/src/pages/Book.tsx:52-54 | the sum of price × quantity is not negative when no price or quantity is |
| BookPage.FindSelected | client/src/pages/Book.tsx:37-40 | the first selected entry for that ticket id: no earlier entry has that id; none when no entry has it |
| BookPage.Clamp | client/src/pages/Book.tsx:44 | the result lies in [0, 10], equals its argument inside that range, and is the nearer bound outside it |
| BookPage.UpdateQuantity | client/src/pages/Book.tsx:42-50 | the cart becomes the stepped cart: from 0 to a positive quantity the ticket is added with it, otherwise the quantity is set, so stepping to 0 removes the ticket |
| BookPage.QuantityShown | client/src/pages/Book.tsx:37-40 | in a cart without repeated ids, the quantity shown is the ticket's item quantity, and 0 for a ticket not in the cart |
| BookPage.StepperSetsClampedQuantity | client/src/pages/Book.tsx:42-50 | one press leaves the ticket at its old quantity plus the step, clamped to [0, 10], and keeps ids unique |
| BookPage.StepDownToZeroRemoves | client/src/pages/Book.tsx:49 | stepping down from 1 removes the ticket and leaves every other item |
| BookPage.TotalPriceIsCartTotal | client/src/pages/Book.tsx:52-54 | for a cart of tickets the page total is the cart total, the sum of price × quantity |
| BookPage.HotelsNotSelected | client/src/pages/Book.tsx:27-35 | hotel items are not selected, so adding a stay leaves the ticket selection alone |
| Validators.PatternIsLocalAtDomain | client/src/utils/validators.ts:10-14 | the e-mail pattern matches exactly `local@domain` with a non-empty local part without whitespace or `@`, and a domain without whitespace or `@` having a dot that is neither first nor last |
| Validators.ValidateEmail | client/src/utils/validators.ts:6-15 | an empty address gets "Email is required", a non-matching one "Please enter a valid email address", and it is valid exactly when the pattern matches |
| Validators.OrdinaryEmailAccepted | client/src/utils/validators.ts:10-14 | an ordinary address is accepted |
| Validators.DotlessDomainRefused | client/src/utils/validators.ts:10-14 | a domain without a dot is refused |
| Validators.SpaceRefused | client/src/utils/validators.ts:10-14 | an address with a space is refused |
| Validators.LeadingDotRefused | client/src/utils/validators.ts:10-14 | a dot right after the `@` does not count |
| Validators.ValidatePassword | client/src/utils/validators.ts:17-25 | an empty password gets "Password is required", a short one "Password must be at least 8 characters", and it is valid exactly when at least eight characters long |
| Validators.TrimEmptyIffBlank | client/src/utils/validators.ts:31 | a string trims to nothing exactly when every character is whitespace |
| Validators.ValidateRequired | client/src/utils/validators.ts:27-35 | invalid exactly when the value is empty or whitespace only, with the message "<field> is required" |
| Validators.ValidatePositiveNumber | client/src/utils/validators.ts:37-45 | invalid exactly when the value is at most 0, with the message "<field> must be greater than 0" |
| Validators.ValidateDateRange | client/src/utils/validators.ts:47-72 | missing date, then check-in in the past, then check-out not after check-in, each with its message; valid exactly when none applies |
| Validators.ParsedRangeValid | client/src/utils/validators.ts:47-72 | with dates that parse, valid exactly when today ≤ check-in < check-out |
| Validators.UnparsableDatesPass | client/src/utils/validators.ts:61-71 | a check-in that does not parse passes every comparison |
| GalleryPage.DisplayPictures | client/src/pages/Gallery.tsx:57-60 | the fetched pictures when there are any, the nine defaults otherwise, and never an empty list |
| GalleryPage.ArrowsCycle | client/src/pages/Gallery.tsx:72-86 | next is one on modulo n and prev one back; both stay in [0, n) and each undoes the other |
| GalleryPage.FullTurnReturns | client/src/pages/Gallery.tsx:80-86 | up to n presses of next move that many places on, wrapping once, and n presses return to the start |
| GalleryPage.Lightbox.constructor | client/src/pages/Gallery.tsx:55 | the lightbox starts closed |
| GalleryPage.Lightbox.Open | client/src/pages/Gallery.tsx:62-65 | the index becomes the given one and the page stops scrolling |
| GalleryPage.Lightbox.Close | client/src/pages/Gallery.tsx:67-70 | the index becomes null and scrolling is restored |
| GalleryPage.Lightbox.GoToPrev | client/src/pages/Gallery.tsx:72-78 | a closed lightbox stays closed; an open one steps back, wrapping from 0 to the last picture |
| GalleryPage.Lightbox.GoToNext | client/src/pages/Gallery.tsx:80-86 | a closed lightbox stays closed; an open one steps on, wrapping from the last picture to 0 |
| GalleryPage.ArrowsKeepPicture | client/src/pages/Gallery.tsx:72-86 | opening on a picture, pressing next and then prev shows the same picture |

## Left out

- `calculateNights` (client/src/utils/formatters.ts) is not part of this model. The cart's total takes the nights between two dates as a function parameter.
- On the server, nights are the difference of two day numbers. The millisecond `Date` arithmetic with its ceiling, time zones and daylight saving is not modelled.
- Money is an integer. JavaScript's floating-point prices and the rounding to cents sent to the payment gateway are not modelled.
- Validators.ValidatePositiveNumber: takes a real number. NaN and the infinities are not modelled, so `NaN` (which the source treats as valid) cannot be expressed.
- Validators.ValidatePassword: measures length in Unicode scalar values. JavaScript counts UTF-16 code units, so the two differ for characters outside the basic plane.
- FilesRoutes.Lower: lower-cases ASCII letters only. JavaScript's full Unicode lower-casing is not modelled.
- FilesRoutes.ExtName: covers names without path separators. Multer's `originalname` has no directory part.
- Hashing is a deterministic constructor. bcrypt's salting and its cost are not modelled, so equal passwords have equal hashes in the model.
- Random values, the clock, the payment gateway's session creation and webhook signature check, multer's disk storage and file deletion are all parameters. None is modelled.
- The joined display columns of the booking listings (user e-mail and name, ticket type, hotel and room type names) are not part of the rows.
- Hotels and gallery images are read-only in this model apart from the gallery upload and delete. `GET /gallery` (a plain read of every image) and `tickets.ts` (a plain read) are not modelled.
- Every `catch` answering 500 after a database failure is left out: the tables here cannot fail.
- The database's e-mail collation is not modelled. E-mails are compared as exact strings.
- HotelModel.GetAll: orders names by code point. The database column's collation, which may ignore case or accents, is not modelled, so two names it ranks as equal can come out in a different order.
- HotelModel.GetAllWithRoomTypes: orders hotels by name the same way as `HotelModel.GetAll`, by code point rather than the column's collation.
- The SQL schema files that server/src/database/setup.ts runs are not part of this model. The `users.email` column is taken to have no UNIQUE constraint. AdminRoutes.AdminEditCanDuplicateEmail and PasswordRoutes.SharedEmailKeepsTokenAlive depend on that. With such a constraint the database would refuse the duplicating write.
- BookingRoutes.RequestedQuantity: the quantity is an integer. `Number(quantity)` can also be a fraction, and a fraction of at least 1 is used as is by server/src/routes/booking.ts:107-114. Such a quantity cannot be expressed here.
- BookingRoutes.PlanBooking: a fractional quantity of at least 1, which the handler accepts and prices as price × quantity, cannot be expressed. Quantities are integers, or `Given(None)` for one that is not a finite number.
- BookingRoutes.PostBooking: inherits the integer quantity of `BookingRoutes.PlanBooking`. A booking row with a fractional quantity cannot be expressed.
- Concurrency is not modelled: each handler runs alone. The check-then-insert window between the availability gate and the insert is therefore not visible.
- The client's checkout loops and its `create-checkout-cart` call are not modelled. That call has no matching server route.
- Local storage persistence of the cart is not modelled.
- AdminRoutes.ParseRole: an unrecognised role string is dropped rather than written to the `role` column. The model's roles are the two the schema allows.
- Cart item ids are a structured key (ticket id, or room type with dates) rather than the string `ticket-<id>` / `hotel-<id>-<in>-<out>`. The two are in one-to-one correspondence for the values used.
- CartContext.Cart.SetTicketQuantity: the quantity is an integer. An `undefined` quantity from JavaScript is not modelled.
- Validators.ValidateDateRange: the parser of date strings is a parameter, and so is today's local midnight.
- The lightbox's scroll lock is a boolean standing for `document.body.style.overflow`. The keyboard handlers of the lightbox are not modelled.
- AuthRoutes.RegisteredUserCanLogIn: states that the login's lookup finds the new account and that the password matches its hash. It does not restate the full `Authenticate` answer, which follows from the success case in `Authenticate`'s own contract.
