# Hotel reservation ledger — Dafny model

A model of the core of a small Flet desktop application for hotel bookings (`main.py`):

- **Date text** (`DateText`): `formatar_data`, which strips every `/` and re-slices an
  eight-character remainder into `DD/MM/YYYY`; `datetime.strptime(s, "%d/%m/%Y")`, modelled as
  `Parse`; and `calcular_dias`, the signed whole-day difference of two such dates, 0 when either
  fails to parse.
- **Calendar** (`Calendar`): the proleptic Gregorian calendar as Python's `datetime` counts it —
  `_days_before_year`, `_days_before_month` and `toordinal` — with independent year-by-year and
  month-by-month sums proved equal to the closed forms, and the proof that the ordinal orders
  dates exactly as the calendar does.
- **The ledger** (`Manager`): `GerenciadorDeReservas` with its three lists of `Cliente`, `Quarto`
  and `Reserva`. Python compares these records by object identity (none defines `__eq__`), so
  every record is held through a `Ref` whose address stands for the object's identity; the
  ledger's `next` counter hands out fresh addresses. `list.remove` of a missing entry raises
  `ValueError`; the model returns `None` for it.
- **The booking rule** (`Booking`): the part of the form callback that finds the first room with
  the entered number, normalises both dates, refuses a stay whose day count is not positive,
  prices it as `dias * preco`, registers a brand-new client and records a confirmed reservation;
  and the ledger the application starts from, seeded with three rooms.

All operations are pure functions over immutable datatypes. A refused booking returns the
ledger it was given, unchanged. The shared helpers are in `Wrappers` (`Option`, `Result`) and
`Seqs` (first-match scan, removal of one position, filtering).

## Model

| member | source | states |
|---|---|---|
| Calendar.DaysBeforeYearIsSum | main.py:66-67 | the leap-year closed form for the days before a year equals adding up 365/366-day years one by one from year 1 |
| Calendar.DaysBeforeMonthIsSum | main.py:66-67 | the cumulative month table, with the leap day after February, equals adding up the month lengths one by one |
| Calendar.MonthsFillYear | main.py:66-67 | the twelve month lengths of a year add up to its length, 366 exactly in leap years |
| Calendar.Ordinal | main.py:66-67 | a valid date's day number from 0001-01-01 (day 1) is the days of all earlier years plus the days of the earlier months of its year plus its day of month, each added up one by one |
| Calendar.OrdinalOrder | main.py:66-67 | for valid dates, the ordinal is smaller exactly when the date is earlier on the calendar, and equal exactly when the dates are equal |
| Calendar.YearsOrdered | main.py:66-67 | the days of an earlier year end no later than a later year begins |
| DateText.Parse | main.py:63-65 | a string that parses is two digits, `/`, two digits, `/`, four digits, and names a date the calendar has, with year 1..9999; anything else is the `ValueError` case |
| DateText.ParseIsRenderInverse | main.py:63-65 | the parser accepts exactly the zero-padded `DD/MM/YYYY` renderings of valid dates, and reads each back to its own date |
| DateText.ParseRender | main.py:63-65 | parsing the zero-padded `DD/MM/YYYY` text of a valid date gives that date |
| DateText.RenderParse | main.py:63-65 | a string that parses is exactly the zero-padded `DD/MM/YYYY` text of the date it parses to |
| DateText.NumberOfDigits | main.py:63-65 | reading back a zero-padded decimal field gives the number it renders, when the number fits the width |
| DateText.DigitsOfNumber | main.py:63-65 | rendering a digit field's value at the field's width gives the field back, leading zeros included |
| DateText.StripSlashes | main.py:72 | the result has no `/`, is shorter than the input by exactly its number of `/`, and is the input itself when the input had no `/`; with the append law this fixes it as the input with every `/` deleted |
| DateText.SlashCountIsMultiplicity | main.py:72 | the number of characters removing slashes drops is the number of times `/` occurs in the input |
| DateText.StripSlashesAppend | main.py:72 | removing slashes from a concatenation removes them from each part separately |
| DateText.Normalize | main.py:71-75 | the result keeps the input's non-slash characters in order; with eight of them it has length 10 with `/` at positions 2 and 5, otherwise it is the stripped text and has no `/` |
| DateText.NormalizeEight | main.py:73-74 | eight slash-free characters, digits or not, are cut as first two, `/`, next two, `/`, last four |
| DateText.NormalizeRenderedText | main.py:71-75 | a text that parses as a date is already in normal form, so normalising it changes nothing |
| DateText.NormalizeIdempotent | main.py:71-75 | normalising a normalised text changes nothing |
| DateText.NormalizeRendered | main.py:71-75 | a valid date typed as `DD/MM/YYYY` or as `DDMMYYYY` normalises to its `DD/MM/YYYY` text |
| DateText.DayCount | main.py:61-69 | the count is 0 whenever either string fails to parse, and otherwise the check-out ordinal minus the check-in ordinal |
| DateText.DayCountPositive | main.py:63-67 | the count is positive exactly when both strings parse and check-out is a later calendar day |
| DateText.DayCountZero | main.py:62-69 | the count is 0 exactly when a string fails to parse or both name the same day |
| DateText.DayCountAntisymmetric | main.py:61-69 | swapping check-in and check-out negates the count, including the 0 of a parse failure |
| DateText.DayCountChains | main.py:66-67 | for three parsable dates, the count from the first to the second plus the second to the third is the count from the first to the third |
| DateText.DayCountTwoNights | main.py:61-67 | 01/01/2024 to 03/01/2024 counts 2, and the reverse counts -2 |
| DateText.DayCountInvalidDates | main.py:62-69 | 31/02/2024 and 01/01/0000 do not parse, so a count with either of them, such as 31/02/2024 to 03/03/2024, is 0 |
| Manager.Empty | main.py:29-32 | a new ledger has three empty lists and satisfies the identity invariant |
| Manager.RegisterClient | main.py:34-37 | the client list grows by one new object whose id is the old length plus one, earlier clients, rooms and reservations are unchanged, and the identity invariant is kept |
| Manager.RegisterRoom | main.py:39-42 | the room list grows by one new object holding the given fields, everything else is unchanged, and the identity invariant is kept |
| Manager.Reserve | main.py:44-47 | the reservation list grows by one new object with status `Confirmada` that stores client, room, dates, day count and total verbatim; clients and rooms are unchanged |
| Manager.ListClients | main.py:52-53 | the listing is the ledger's client list itself, in registration order, with no client twice when the identity invariant holds |
| Manager.ListReservations | main.py:49-50 | the listing is the ledger's reservation list itself, in the order made, with no reservation twice when the identity invariant holds |
| Manager.RegisteredClientListed | main.py:52-53 | after registration the client listing is the previous listing followed by the new client |
| Manager.ReservationListed | main.py:49-50 | after a reservation the reservation listing is the previous listing followed by the new reservation |
| Manager.RemoveRef | main.py:56 | removal by identity fails exactly when no entry is that object, and otherwise takes out the first entry that is, shortening the list by one and keeping the rest in order |
| Manager.RemoveRefKeepsOthers | main.py:56 | in a list of distinct objects, removal keeps exactly the other objects, in order, and the list stays duplicate-free |
| Manager.CancelReservation | main.py:55-56 | cancelling fails exactly when the reservation object is not listed, otherwise removes its first occurrence, leaves clients and rooms alone and keeps the identity invariant |
| Manager.DeleteClient | main.py:58-59 | deleting fails exactly when the client object is not listed, otherwise removes its first occurrence, leaves every reservation and room alone and keeps the identity invariant |
| Manager.CancelByIdentity | main.py:55-56 | of two reservations with identical fields, cancelling one leaves the other listed |
| Manager.DeleteClientKeepsReservations | main.py:18-26 | after a client is deleted each reservation still refers to the client object it was made with |
| Manager.RegisterKeepsIdsSequential | main.py:34-37 | without deletions the client ids stay 1, 2, 3, … in list order |
| Manager.IdReusedAfterDeletion | main.py:35 | after registering two clients and deleting the first, the next client gets id 2, which the second client still holds |
| Booking.FindRoom | main.py:101-105 | the position found holds a room with the number and no earlier room has it; none is found exactly when no room has it |
| Booking.Commit | main.py:118-120 | one new client with id old length plus one and one confirmed reservation for it are appended, priced as days times the room's price |
| Booking.Book | main.py:97-120 | a refusal leaves the ledger unchanged and is RoomNotFound exactly when no room has the number, or StayNotPositive exactly when one does and the normalised dates count at most 0; a success uses the first matching room, stores the normalised dates and a positive count, totals days times price, and appends one new client and one confirmed reservation |
| Booking.BookingSucceedsIff | main.py:101-116 | a booking succeeds exactly when some room has the number and both normalised dates parse with check-out on a later day |
| Booking.BookingRegistersNewClient | main.py:119 | a successful booking always registers a client object the ledger did not hold, even for a repeated name |
| Booking.CompactDatesBookAlike | main.py:98-99 | typing valid dates as eight digits books exactly as typing them with slashes |
| Booking.Seeded | main.py:83-85 | the starting ledger holds rooms 1 Single 100, 2 Double 150 and 3 Suite 200, all available, and no clients or reservations |
| Booking.ExampleTwoNightsInDouble | main.py:97-120 | booking room 2 from 01/01/2024 to 03/01/2024 on the starting ledger counts 2 days, totals 300, is confirmed, uses the Double room and is listed |
| Booking.ExampleUnknownRoom | main.py:101-110 | booking room 99 on the starting ledger is refused with RoomNotFound and the ledger is unchanged |

## Left out

- The Flet user interface: page setup, widgets, `janela.update()`, the room, reservation and
  client listings as text rows, and the delete buttons (main.py:77-80, 86-91, 128-190). The delete
  buttons call `CancelReservation` and `DeleteClient` on the object of the row.
- The message strings shown to the user and the `:.2f` formatting of totals (main.py:108, 114,
  121, 125): presentation only.
- Floating point: `preco` and `total` are Dafny `real`, and `total = dias * preco` is exact, with
  no binary rounding.
- Reading the room number with `int(input_quarto.value)` and its `ValueError` message
  (main.py:97, 124-126): `Book` takes the room number already as an integer.
- DateText.Parse: accepts only the exact ten-character `DD/MM/YYYY` shape with ASCII digits.
  CPython's `strptime` also accepts a space-padded day (` 1/01/2024`), one-digit day or month
  fields, and non-ASCII decimal digits; those strings are refused by the model.
- The `disponivel` flag of a room is stored and carried by `Room`. The application reads it only
  to label the room listing (main.py:88), which is user interface and left out, and never updates
  it, so no modelled operation depends on it.
- Object identity is modelled by addresses handed out from the ledger's `next` counter; Python's
  allocator and garbage collection are not modelled. The ledger's identity invariant
  (`Manager.Valid`) is an assumption of the lemmas that rely on it. Every operation is proved to
  keep it, with two exceptions: `Manager.Reserve` keeps it only when the client and room it is
  given were allocated before the ledger's `next` address, and `Booking.Commit` keeps it only when
  the room it is given was allocated before `next`. `Booking.Book` always passes `Commit` a room
  taken from the ledger's own list, so it keeps the invariant unconditionally.
- `listar_reservas` and `listar_clientes` return the live Python list; `ListReservations` and
  `ListClients` return the sequence value, so later mutation of the returned list by a caller is
  not modelled.
- `cancelar_reserva` and `apagar_cliente` on an entry that is not listed raise `ValueError`,
  which the callbacks do not catch; the model returns `None` and says nothing about what the
  framework does with the uncaught exception.
