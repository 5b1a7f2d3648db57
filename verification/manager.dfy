/**
 The reservation ledger (`GerenciadorDeReservas`): three in-memory lists of clients, rooms and
 reservations. Python compares the records by object identity, so every record here is held
 through a `Ref` carrying an address that no other live record shares; `next` is the address
 the next created record receives.
 */
module Manager {
  import opened Wrappers
  import opened Seqs

  type Addr = nat

  /** A Python object: its identity and its field values. */
  datatype Ref<T> = Ref(addr: Addr, obj: T)

  /** `Cliente`: a sequential id and three free-text fields. */
  datatype Client = Client(id: int, name: string, email: string, phone: string)

  /** `Quarto`: the availability flag is stored but never consulted. */
  datatype Room = Room(number: int, kind: string, price: real, available: bool)

  /** `Reserva`: holds its own references to the client and room it was made for. */
  datatype Reservation = Reservation(
    client: Ref<Client>,
    room: Ref<Room>,
    checkIn: string,
    checkOut: string,
    days: int,
    total: real,
    status: string)

  /** The only status a reservation is ever given. */
  const Confirmed: string := "Confirmada"

  datatype Ledger = Ledger(
    clients: seq<Ref<Client>>,
    rooms: seq<Ref<Room>>,
    reservations: seq<Ref<Reservation>>,
    next: Addr)

  /** A creating operation's new ledger together with the record it created. */
  datatype Created<T> = Created(ledger: Ledger, made: Ref<T>)

  /** No two entries of a list are the same object. */
  predicate Unique<T>(xs: seq<Ref<T>>) {
    forall i, j :: 0 <= i < j < |xs| ==> xs[i].addr != xs[j].addr
  }

  /** Every entry of a list was allocated before address `bound`. */
  predicate Below<T>(xs: seq<Ref<T>>, bound: Addr) {
    forall i :: 0 <= i < |xs| ==> xs[i].addr < bound
  }

  /** Some entry of `xs` is the object at address `a`. */
  predicate Holds<T>(xs: seq<Ref<T>>, a: Addr) {
    exists i :: 0 <= i < |xs| && xs[i].addr == a
  }

  /**
   The ledger's identity invariant: each list holds distinct objects, and every object the ledger
   can reach, including those a reservation refers to, was allocated before `next`.
   */
  predicate Valid(l: Ledger) {
    && Unique(l.clients) && Unique(l.rooms) && Unique(l.reservations)
    && Below(l.clients, l.next) && Below(l.rooms, l.next) && Below(l.reservations, l.next)
    && forall i :: 0 <= i < |l.reservations| ==>
         l.reservations[i].obj.client.addr < l.next && l.reservations[i].obj.room.addr < l.next
  }

  /** `GerenciadorDeReservas()`: three empty lists. */
  function Empty(): (l: Ledger)
    ensures Valid(l)
    ensures l.clients == [] && l.rooms == [] && l.reservations == []
  {
    Ledger([], [], [], 0)
  }

  /**
   `cadastrar_cliente`: appends one new client whose id is one more than the number of clients
   held, leaving the earlier clients, the rooms and the reservations as they were.
   */
  function RegisterClient(l: Ledger, name: string, email: string, phone: string): (r: Created<Client>)
    ensures |r.ledger.clients| == |l.clients| + 1
    ensures r.ledger.clients[..|l.clients|] == l.clients && r.ledger.clients[|l.clients|] == r.made
    ensures r.made.obj == Client(|l.clients| + 1, name, email, phone)
    ensures r.ledger.rooms == l.rooms && r.ledger.reservations == l.reservations
    ensures Valid(l) ==> Valid(r.ledger) && !Holds(l.clients, r.made.addr)
  {
    var c := Ref(l.next, Client(|l.clients| + 1, name, email, phone));
    Created(l.(clients := l.clients + [c], next := l.next + 1), c)
  }

  /** `cadastrar_quarto`: appends one new room with the given fields, leaving everything else as it was. */
  function RegisterRoom(l: Ledger, number: int, kind: string, price: real, available: bool): (r: Created<Room>)
    ensures |r.ledger.rooms| == |l.rooms| + 1
    ensures r.ledger.rooms[..|l.rooms|] == l.rooms && r.ledger.rooms[|l.rooms|] == r.made
    ensures r.made.obj == Room(number, kind, price, available)
    ensures r.ledger.clients == l.clients && r.ledger.reservations == l.reservations
    ensures Valid(l) ==> Valid(r.ledger) && !Holds(l.rooms, r.made.addr)
  {
    var q := Ref(l.next, Room(number, kind, price, available));
    Created(l.(rooms := l.rooms + [q], next := l.next + 1), q)
  }

  /**
   `realizar_reserva` of the ledger: appends one confirmed reservation that stores the given
   client, room, dates, day count and total verbatim; clients and rooms are untouched.
   */
  function Reserve(l: Ledger, client: Ref<Client>, room: Ref<Room>, checkIn: string, checkOut: string,
                   days: int, total: real): (r: Created<Reservation>)
    ensures |r.ledger.reservations| == |l.reservations| + 1
    ensures r.ledger.reservations[..|l.reservations|] == l.reservations
    ensures r.ledger.reservations[|l.reservations|] == r.made
    ensures r.made.obj.status == Confirmed
    ensures r.made.obj.client == client && r.made.obj.room == room
    ensures r.made.obj.checkIn == checkIn && r.made.obj.checkOut == checkOut
    ensures r.made.obj.days == days && r.made.obj.total == total
    ensures r.ledger.clients == l.clients && r.ledger.rooms == l.rooms
    ensures Valid(l) && client.addr < l.next && room.addr < l.next ==>
              Valid(r.ledger) && !Holds(l.reservations, r.made.addr)
  {
    var v := Ref(l.next, Reservation(client, room, checkIn, checkOut, days, total, Confirmed));
    Created(l.(reservations := l.reservations + [v], next := l.next + 1), v)
  }

  /**
   `listar_reservas`: the ledger's own reservation list, in the order the reservations were made;
   under the identity invariant no reservation appears twice.
   */
  function ListReservations(l: Ledger): (r: seq<Ref<Reservation>>)
    ensures r == l.reservations
    ensures Valid(l) ==> Unique(r)
  {
    l.reservations
  }

  /**
   `listar_clientes`: the ledger's own client list, in the order the clients were registered;
   under the identity invariant no client appears twice.
   */
  function ListClients(l: Ledger): (r: seq<Ref<Client>>)
    ensures r == l.clients
    ensures Valid(l) ==> Unique(r)
  {
    l.clients
  }

  /**
   `list.remove` by identity: the list without its first entry that is the object at `a`,
   or `None` (Python's `ValueError`) when no entry is.
   */
  function RemoveRef<T>(xs: seq<Ref<T>>, a: Addr): (r: Option<seq<Ref<T>>>)
    ensures r.None? <==> !Holds(xs, a)
    ensures r.Some? ==> |r.value| == |xs| - 1
    ensures r.Some? ==> exists i :: 0 <= i < |xs| && xs[i].addr == a
                          && (forall j :: 0 <= j < i ==> xs[j].addr != a)
                          && r.value == RemoveAt(xs, i)
  {
    match FirstIndex(xs, (x: Ref<T>) => x.addr == a)
    case None => None
    case Some(i) => Some(RemoveAt(xs, i))
  }

  /** Removing one object from a list of distinct objects keeps exactly the other objects, in order. */
  lemma RemoveRefKeepsOthers<T>(xs: seq<Ref<T>>, a: Addr)
    requires Unique(xs) && Holds(xs, a)
    ensures RemoveRef(xs, a) == Some(Filter(xs, (x: Ref<T>) => x.addr != a))
    ensures Unique(RemoveRef(xs, a).value)
  {
    var i :| 0 <= i < |xs| && xs[i].addr == a && (forall j :: 0 <= j < i ==> xs[j].addr != a)
                               && RemoveRef(xs, a).value == RemoveAt(xs, i);
    RemoveAtIsFilter(xs, (x: Ref<T>) => x.addr != a, i);
  }

  /**
   `cancelar_reserva`: removes the first entry of the reservation list that is the given object;
   `None` when it is not there (Python raises `ValueError`). Clients and rooms are untouched.
   */
  function CancelReservation(l: Ledger, v: Ref<Reservation>): (r: Option<Ledger>)
    ensures r.None? <==> !Holds(l.reservations, v.addr)
    ensures r.Some? ==> |r.value.reservations| == |l.reservations| - 1
    ensures r.Some? ==> exists i :: 0 <= i < |l.reservations| && l.reservations[i].addr == v.addr
                          && (forall j :: 0 <= j < i ==> l.reservations[j].addr != v.addr)
                          && r.value.reservations == RemoveAt(l.reservations, i)
    ensures r.Some? ==> r.value.clients == l.clients && r.value.rooms == l.rooms && r.value.next == l.next
    ensures r.Some? && Valid(l) ==> Valid(r.value)
  {
    match RemoveRef(l.reservations, v.addr)
    case None => None
    case Some(rest) => Some(l.(reservations := rest))
  }

  /**
   `apagar_cliente`: removes the first entry of the client list that is the given object; `None`
   when it is not there. Reservations keep their own client reference, so none of them changes.
   */
  function DeleteClient(l: Ledger, c: Ref<Client>): (r: Option<Ledger>)
    ensures r.None? <==> !Holds(l.clients, c.addr)
    ensures r.Some? ==> |r.value.clients| == |l.clients| - 1
    ensures r.Some? ==> exists i :: 0 <= i < |l.clients| && l.clients[i].addr == c.addr
                          && (forall j :: 0 <= j < i ==> l.clients[j].addr != c.addr)
                          && r.value.clients == RemoveAt(l.clients, i)
    ensures r.Some? ==> r.value.reservations == l.reservations && r.value.rooms == l.rooms
                          && r.value.next == l.next
    ensures r.Some? && Valid(l) ==> Valid(r.value)
  {
    match RemoveRef(l.clients, c.addr)
    case None => None
    case Some(rest) => Some(l.(clients := rest))
  }

  /**
   Cancelling one of two reservations with identical fields removes that one only: the other,
   a different object, stays listed.
   */
  lemma CancelByIdentity(l: Ledger, v: Ref<Reservation>, w: Ref<Reservation>)
    requires Valid(l) && v in l.reservations && w in l.reservations
    requires v.obj == w.obj && v.addr != w.addr
    ensures CancelReservation(l, v).Some?
    ensures v !in ListReservations(CancelReservation(l, v).value)
    ensures w in ListReservations(CancelReservation(l, v).value)
  {
    RemoveRefKeepsOthers(l.reservations, v.addr);
    var p := (x: Ref<Reservation>) => x.addr != v.addr;
    var kept := Filter(l.reservations, p);
    var k :| 0 <= k < |l.reservations| && l.reservations[k] == w;
    assert p(l.reservations[k]);
  }

  /** Deleting a client leaves every reservation, and so the client details it shows, as it was. */
  lemma DeleteClientKeepsReservations(l: Ledger, c: Ref<Client>, i: nat)
    requires Holds(l.clients, c.addr) && i < |l.reservations|
    ensures DeleteClient(l, c).Some?
    ensures ListReservations(DeleteClient(l, c).value)[i].obj.client == l.reservations[i].obj.client
  {
  }

  /** Client ids are 1, 2, 3, … in list order. */
  predicate SequentialIds(clients: seq<Ref<Client>>) {
    forall i :: 0 <= i < |clients| ==> clients[i].obj.id == i + 1
  }

  /** Without deletions, registration keeps client ids sequential. */
  lemma RegisterKeepsIdsSequential(l: Ledger, name: string, email: string, phone: string)
    requires SequentialIds(l.clients)
    ensures SequentialIds(RegisterClient(l, name, email, phone).ledger.clients)
  {
  }

  /** A registered client is listed last, after the clients listed before. */
  lemma RegisteredClientListed(l: Ledger, name: string, email: string, phone: string)
    ensures var r := RegisterClient(l, name, email, phone);
            ListClients(r.ledger) == ListClients(l) + [r.made]
  {
  }

  /** A new reservation is listed last, after the reservations listed before. */
  lemma ReservationListed(l: Ledger, client: Ref<Client>, room: Ref<Room>, checkIn: string, checkOut: string,
                          days: int, total: real)
    ensures var r := Reserve(l, client, room, checkIn, checkOut, days, total);
            ListReservations(r.ledger) == ListReservations(l) + [r.made]
  {
  }

  /**
   Ids are `len + 1`, so they are reused: register two clients, delete the first, and the next
   client gets the id the second still holds.
   */
  lemma IdReusedAfterDeletion(l: Ledger)
    requires l.clients == []
    ensures var a := RegisterClient(l, "A", "", "");
            var b := RegisterClient(a.ledger, "B", "", "");
            var d := DeleteClient(b.ledger, a.made);
            d.Some? &&
            var c := RegisterClient(d.value, "C", "", "");
            c.made.obj.id == 2 && b.made.obj.id == 2 && b.made in ListClients(c.ledger)
  {
    var a := RegisterClient(l, "A", "", "");
    var b := RegisterClient(a.ledger, "B", "", "");
    assert b.ledger.clients == [a.made, b.made];
    assert Holds(b.ledger.clients, a.made.addr);
    var d := DeleteClient(b.ledger, a.made);
    assert d.value.clients == [b.made];
  }
}
