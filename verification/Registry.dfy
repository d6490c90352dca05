/** The connection table of the server object. */
module Registry {
  import opened Options
  import opened Bytes
  import SerialIds

  /** A connection, known by the serial id it was created with. */
  datatype ConnRef = ConnRef(serialId: int)

  /** The table; None is a null entry. */
  type Table = map<int, Option<ConnRef>>

  /** Entries sit under their own serial id. */
  predicate Keyed(t: Table) {
    forall k :: k in t && t[k].Some? ==> t[k].value.serialId == k
  }

  /** The parameter of GetConnection is 32 bits wide as written. */
  function Key(form: Form, id: int): int {
    if form == AsWritten then id % U32 else id
  }

  function Lookup(form: Form, t: Table, id: int): Option<ConnRef> {
    if Key(form, id) in t then t[Key(form, id)] else None
  }

  /** The connection with this serial id is in the table. */
  predicate Listed(t: Table, id: int) {
    Lookup(Intended, t, id).Some?
  }

  /** The table after HandleNewConn: the new id is found by every lookup that comes down to it, and no
      other lookup changes. */
  function Insert(t: Table, id: int): (r: Table)
    ensures Keyed(t) ==> Keyed(r)
    ensures forall form, k :: Lookup(form, r, k) == if Key(form, k) == id then Some(ConnRef(id)) else Lookup(form, t, k)
  {
    t[id := Some(ConnRef(id))]
  }

  /** The table after the close callback: the id is found no more, and no other lookup changes. */
  function Remove(t: Table, id: int): (r: Table)
    ensures Keyed(t) ==> Keyed(r)
    ensures forall form, k :: Lookup(form, r, k) == if Key(form, k) == id then None else Lookup(form, t, k)
  {
    t - {id}
  }

  /** The table after a lookup, which leaves a null entry behind on a miss as written: no lookup changes. */
  function Probe(form: Form, t: Table, id: int): (r: Table)
    ensures Keyed(t) ==> Keyed(r)
    ensures forall f, k :: Lookup(f, r, k) == Lookup(f, t, k)
  {
    if form == AsWritten && Key(form, id) !in t then t[Key(form, id) := None] else t
  }

  /** Looking up a live connection by its serial id finds it exactly when the id fits the parameter;
      otherwise the caller gets null or somebody else. */
  lemma LookupFindsExactly(form: Form, t: Table, id: int)
    requires Keyed(t) && Listed(t, id)
    ensures Lookup(form, t, id) == Some(ConnRef(id)) <==> (form == Intended || 0 <= id < U32)
  {
    if 0 <= id < U32 {
      assert id % U32 == id;
    }
  }

  /** A narrow lookup is a wide one of what is left of the id in 32 bits. */
  lemma NarrowLookup(t: Table, id: int)
    ensures Lookup(AsWritten, t, id) == Lookup(Intended, t, id % 0x1_0000_0000)
  {
  }

  /** A reading of fourteen digits, year to second, makes an id too long for 32 bits. */
  const FOURTEEN_DIGITS := 10_000_000_000_000

  /** So as written no connection is ever found by the id it was generated with, while the intended lookup
      always finds it. */
  lemma GeneratedIdIsLost(digits: SerialIds.Digits, times: seq<int>, i: nat, form: Form, t: Table)
    requires i < |times| && digits(times[i]) >= FOURTEEN_DIGITS
    requires Keyed(t) && Listed(t, SerialIds.Id(digits, times, i))
    ensures SerialIds.Id(digits, times, i) >= U32
    ensures var id := SerialIds.Id(digits, times, i);
            Lookup(form, t, id) == Some(ConnRef(id)) <==> form == Intended
  {
    LookupFindsExactly(form, t, SerialIds.Id(digits, times, i));
  }

  class TCPServer {
    var connections: Table

    constructor ()
      ensures connections == map[] && Keyed(connections)
    {
      connections := map[];
    }

    /** HandleNewConn, up to queueing Start on the loop of the connection. */
    method Register(id: int) returns (conn: ConnRef)
      requires Keyed(connections)
      modifies this
      ensures Keyed(connections) && conn.serialId == id && connections == Insert(old(connections), id)
      ensures forall f, k | Key(f, k) == id :: Lookup(f, connections, k) == Some(conn)
      ensures forall f, k | Key(f, k) != id :: Lookup(f, connections, k) == Lookup(f, old(connections), k)
    {
      conn := ConnRef(id);
      connections := connections[id := Some(conn)];
    }

    /** The close callback the server installs. */
    method Erase(conn: ConnRef)
      requires Keyed(connections)
      modifies this
      ensures Keyed(connections) && connections == Remove(old(connections), conn.serialId)
      ensures forall f, k | Key(f, k) == conn.serialId :: Lookup(f, connections, k) == None
      ensures forall f, k | Key(f, k) != conn.serialId :: Lookup(f, connections, k) == Lookup(f, old(connections), k)
    {
      connections := connections - {conn.serialId};
    }

    /** GetConnection: as written, a miss leaves a null entry behind. */
    method GetConnection(form: Form, id: int) returns (r: Option<ConnRef>)
      requires Keyed(connections)
      modifies this
      ensures Keyed(connections) && r == Lookup(form, old(connections), id)
      ensures var key := if form == AsWritten then id % 0x1_0000_0000 else id;
              r == (if key in old(connections) then old(connections)[key] else None)
              && connections == if form == AsWritten && key !in old(connections)
                                then old(connections)[key := None] else old(connections)
      ensures forall f, k :: Lookup(f, connections, k) == Lookup(f, old(connections), k)
      ensures connections == Probe(form, old(connections), id)
    {
      var key := Key(form, id);
      if key in connections {
        r := connections[key];
      } else {
        r := None;
        if form == AsWritten {
          connections := connections[key := None];
        }
      }
    }
  }
}
