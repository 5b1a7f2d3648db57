/**
 The booking rule of the reservation form's callback: find the room by number, normalise the
 two dates, reject stays that are not at least one day long, price the stay, register a new
 client and record a confirmed reservation. The application starts from a ledger seeded with
 three rooms.
 */
module Booking {
  import opened Wrappers
  import opened Seqs
  import opened DateText
  import opened Manager
  import Calendar

  /** Why a booking attempt was refused; either way nothing is recorded. */
  datatype BookingError = RoomNotFound | StayNotPositive

  /** The ledger after a booking attempt, and the reservation made or the reason for refusing. */
  datatype Attempt = Attempt(ledger: Ledger, outcome: Result<Ref<Reservation>, BookingError>)

  /** The position of the first room with the given number (the `for q in quartos` scan with `break`). */
  function FindRoom(rooms: seq<Ref<Room>>, number: int): (r: Option<nat>)
    ensures r.Some? ==> r.value < |rooms| && rooms[r.value].obj.number == number
    ensures r.Some? ==> forall j :: 0 <= j < r.value ==> rooms[j].obj.number != number
    ensures r.None? <==> forall j :: 0 <= j < |rooms| ==> rooms[j].obj.number != number
  {
    FirstIndex(rooms, (q: Ref<Room>) => q.obj.number == number)
  }

  /** `room` is the first entry of `rooms` whose number is `number`. */
  predicate FirstRoomNumbered(rooms: seq<Ref<Room>>, number: int, room: Ref<Room>) {
    exists i :: 0 <= i < |rooms| && rooms[i] == room && room.obj.number == number
                && forall j :: 0 <= j < i ==> rooms[j].obj.number != number
  }

  /** The reservation's total is its day count times its room's nightly price (`total = dias * quarto.preco`). */
  predicate PricedByStay(v: Reservation) {
    v.total == v.days as real * v.room.obj.price
  }

  /** Some room in the list has the given number. */
  predicate HasRoom(rooms: seq<Ref<Room>>, number: int) {
    exists j :: 0 <= j < |rooms| && rooms[j].obj.number == number
  }

  /**
   The committing half of a booking, once room and stay are accepted: price the stay, register a new client and
   record a confirmed reservation for it.
   */
  function Commit(l: Ledger, name: string, email: string, phone: string, room: Ref<Room>,
                  checkIn: string, checkOut: string, days: int): (r: Created<Reservation>)
    ensures r.made.obj.room == room && r.made.obj.days == days
    ensures r.made.obj.checkIn == checkIn && r.made.obj.checkOut == checkOut
    ensures PricedByStay(r.made.obj)
    ensures r.made.obj.status == Confirmed
    ensures r.made.obj.client.obj == Client(|l.clients| + 1, name, email, phone)
    ensures r.ledger.clients == l.clients + [r.made.obj.client]
    ensures r.ledger.reservations == l.reservations + [r.made]
    ensures r.ledger.rooms == l.rooms
    ensures Valid(l) && room.addr < l.next ==> Valid(r.ledger)
  {
    var total := days as real * room.obj.price;
    var c := RegisterClient(l, name, email, phone);
    assert c.ledger.clients == l.clients + [c.made];
    var v := Reserve(c.ledger, c.made, room, checkIn, checkOut, days, total);
    assert v.ledger.reservations == l.reservations + [v.made];
    v
  }

  /**
   The booking callback, from the already-parsed room number on. A refusal leaves the ledger
   unchanged; a booking appends one new client and one confirmed reservation for the first room
   with that number, with a positive day count and total = days × price.
   */
  function Book(l: Ledger, name: string, email: string, phone: string, roomNumber: int,
                checkInText: string, checkOutText: string): (r: Attempt)
    ensures r.outcome.Failure? ==> r.ledger == l
    ensures r.outcome == Failure(RoomNotFound) <==> !HasRoom(l.rooms, roomNumber)
    ensures r.outcome == Failure(StayNotPositive) <==>
              HasRoom(l.rooms, roomNumber) && DayCount(Normalize(checkInText), Normalize(checkOutText)) <= 0
    ensures r.outcome.Success? ==> FirstRoomNumbered(l.rooms, roomNumber, r.outcome.value.obj.room)
    ensures r.outcome.Success? ==> r.outcome.value.obj.checkIn == Normalize(checkInText)
    ensures r.outcome.Success? ==> r.outcome.value.obj.checkOut == Normalize(checkOutText)
    ensures r.outcome.Success? ==>
              r.outcome.value.obj.days == DayCount(Normalize(checkInText), Normalize(checkOutText)) > 0
    ensures r.outcome.Success? ==> PricedByStay(r.outcome.value.obj)
    ensures r.outcome.Success? ==> r.outcome.value.obj.status == Confirmed
    ensures r.outcome.Success? ==> r.outcome.value.obj.client.obj == Client(|l.clients| + 1, name, email, phone)
    ensures r.outcome.Success? ==> r.ledger.clients == l.clients + [r.outcome.value.obj.client]
    ensures r.outcome.Success? ==> r.ledger.reservations == l.reservations + [r.outcome.value]
    ensures r.outcome.Success? ==> r.ledger.rooms == l.rooms
    ensures Valid(l) ==> Valid(r.ledger)
  {
    var checkIn := Normalize(checkInText);
    var checkOut := Normalize(checkOutText);
    match FindRoom(l.rooms, roomNumber)
    case None => Attempt(l, Failure(RoomNotFound))
    case Some(i) =>
      var days := DayCount(checkIn, checkOut);
      if days <= 0 then
        Attempt(l, Failure(StayNotPositive))
      else
        assert FirstRoomNumbered(l.rooms, roomNumber, l.rooms[i]);
        var v := Commit(l, name, email, phone, l.rooms[i], checkIn, checkOut, days);
        Attempt(v.ledger, Success(v.made))
  }

  /** The application's starting ledger: rooms 1 Single 100, 2 Double 150 and 3 Suite 200, all available. */
  function Seeded(): (l: Ledger)
    ensures Valid(l)
    ensures l.clients == [] && l.reservations == []
    ensures |l.rooms| == 3
    ensures l.rooms[0].obj == Room(1, "Single", 100.0, true)
    ensures l.rooms[1].obj == Room(2, "Double", 150.0, true)
    ensures l.rooms[2].obj == Room(3, "Suite", 200.0, true)
  {
    var a := RegisterRoom(Empty(), 1, "Single", 100.0, true);
    var b := RegisterRoom(a.ledger, 2, "Double", 150.0, true);
    var c := RegisterRoom(b.ledger, 3, "Suite", 200.0, true);
    c.ledger
  }

  /**
   A booking goes through exactly when a room has the number and both normalised dates parse
   with check-out on a later calendar day than check-in.
   */
  lemma BookingSucceedsIff(l: Ledger, name: string, email: string, phone: string, roomNumber: int,
                           checkInText: string, checkOutText: string)
    ensures Book(l, name, email, phone, roomNumber, checkInText, checkOutText).outcome.Success? <==>
              && HasRoom(l.rooms, roomNumber)
              && Parse(Normalize(checkInText)).Some? && Parse(Normalize(checkOutText)).Some?
              && Calendar.Before(Parse(Normalize(checkInText)).value, Parse(Normalize(checkOutText)).value)
  {
    DayCountPositive(Normalize(checkInText), Normalize(checkOutText));
  }

  /** Every successful booking registers a client object the ledger did not hold before. */
  lemma BookingRegistersNewClient(l: Ledger, name: string, email: string, phone: string, roomNumber: int,
                                  checkInText: string, checkOutText: string)
    requires Valid(l)
    ensures var r := Book(l, name, email, phone, roomNumber, checkInText, checkOutText);
            r.outcome.Success? ==> !Holds(l.clients, r.outcome.value.obj.client.addr)
  {
    var r := Book(l, name, email, phone, roomNumber, checkInText, checkOutText);
    if r.outcome.Success? {
      var c := r.outcome.value.obj.client;
      assert r.ledger.clients == l.clients + [c];
      assert Unique(r.ledger.clients);
      assert r.ledger.clients[|l.clients|] == c;
    }
  }

  /** On the seeded ledger room number 2 is found at position 1: the Double room at 150. */
  lemma SeededRoomTwo()
    ensures FindRoom(Seeded().rooms, 2) == Some(1)
    ensures Seeded().rooms[1].obj == Room(2, "Double", 150.0, true)
  {
    var l := Seeded();
    assert l.rooms[0].obj.number != 2 && l.rooms[1].obj.number == 2;
  }

  /** 01/01/2024 to 03/01/2024, as typed, is a two-day stay. */
  lemma TwoNightsTyped()
    ensures Normalize("01/01/2024") == "01/01/2024" && Normalize("03/01/2024") == "03/01/2024"
    ensures DayCount(Normalize("01/01/2024"), Normalize("03/01/2024")) == 2
  {
    DayCountTwoNights();
    ParseJanuaryDates();
    NormalizeRenderedText("01/01/2024", Calendar.Date(2024, 1, 1));
    NormalizeRenderedText("03/01/2024", Calendar.Date(2024, 1, 3));
  }

  /** Room 2 from 01/01/2024 to 03/01/2024 on the seeded ledger: two days, 300.00, confirmed and listed. */
  lemma ExampleTwoNightsInDouble()
    ensures var r := Book(Seeded(), "Ana", "ana@example.com", "5555", 2, "01/01/2024", "03/01/2024");
            && r.outcome.Success?
            && r.outcome.value.obj.days == 2
            && r.outcome.value.obj.total == 300.0
            && r.outcome.value.obj.status == Confirmed
            && r.outcome.value.obj.room.obj.kind == "Double"
            && r.outcome.value in ListReservations(r.ledger)
  {
    var l := Seeded();
    var checkIn, checkOut := "01/01/2024", "03/01/2024";
    SeededRoomTwo();
    TwoNightsTyped();
    var c := Commit(l, "Ana", "ana@example.com", "5555", l.rooms[1], checkIn, checkOut, 2);
    var r := Book(l, "Ana", "ana@example.com", "5555", 2, checkIn, checkOut);
    assert r == Attempt(c.ledger, Success(c.made));
    var v := c.made.obj;
    assert PricedByStay(v);
    assert v.total == 300.0;
    assert c.ledger.reservations == [c.made];
  }

  /** Typing the dates as eight digits books exactly as typing them with slashes does. */
  lemma CompactDatesBookAlike(l: Ledger, name: string, email: string, phone: string, roomNumber: int,
                              checkIn: Calendar.Date, checkOut: Calendar.Date)
    requires Calendar.Valid(checkIn) && Calendar.Valid(checkOut)
    ensures Book(l, name, email, phone, roomNumber, Compact(checkIn), Compact(checkOut))
              == Book(l, name, email, phone, roomNumber, Render(checkIn), Render(checkOut))
  {
    NormalizeRendered(checkIn);
    NormalizeRendered(checkOut);
  }

  /** Booking room 99, which the seeded ledger does not have, is refused and records nothing. */
  lemma ExampleUnknownRoom(checkInText: string, checkOutText: string)
    ensures Book(Seeded(), "Ana", "ana@example.com", "5555", 99, checkInText, checkOutText)
              == Attempt(Seeded(), Failure(RoomNotFound))
  {
  }
}
