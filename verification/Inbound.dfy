/** The store of inbound Megolm sessions. A session is abstracted to its id, its
    key chain and its first known index. A room or sender that is not known is an
    empty string. */
module Inbound {
  datatype Session = Session(id: string, chain: nat, index: nat)

  datatype Entry = Entry(session: Session, room: string, sender: string)

  type Store = map<string, Entry>

  datatype Ordering = Unconnected | Worse | Equal | Better

  /** How a held session compares with an offered one: worse when it starts later. */
  function Compare(held: Session, offered: Session): Ordering {
    if held.id != offered.id || held.chain != offered.chain then Unconnected
    else if held.index > offered.index then Worse
    else if held.index == offered.index then Equal
    else Better
  }

  /** Two bindings contradict each other only if each names something else. */
  predicate BindingMatches(held: string, offered: string) {
    held == "" || offered == "" || held == offered
  }

  datatype Import = Import(id: string, session: Session, room: string, sender: string)

  function Bound(held: string, offered: string): string { if held == "" then offered else held }

  /** An import the store may take up for a held entry. */
  predicate Compatible(held: Entry, i: Import) {
    && i.session.id == i.id
    && BindingMatches(held.room, i.room) && BindingMatches(held.sender, i.sender)
    && Compare(held.session, i.session) != Unconnected
  }

  /** The earlier of two sessions, and each binding as soon as it is known. */
  function Upgraded(held: Entry, i: Import): Entry {
    Entry(if held.session.index > i.session.index then i.session else held.session,
          Bound(held.room, i.room), Bound(held.sender, i.sender))
  }

  function Inserted(store: Store, i: Import): Store {
    if i.session.id != i.id then store
    else if i.id !in store then store[i.id := Entry(i.session, i.room, i.sender)]
    else if Compatible(store[i.id], i) then store[i.id := Upgraded(store[i.id], i)]
    else store
  }

  class Crypto {
    var inbound: Store

    /** Returns true exactly when the store changed. */
    method InsertInbound(id: string, session: Session, room: string, sender: string) returns (changed: bool)
      requires KeyedById(inbound)
      modifies this
      ensures inbound == Inserted(old(inbound), Import(id, session, room, sender))
      ensures changed <==> inbound != old(inbound)
      ensures KeyedById(inbound)
    {
      if session.id != id {
        return false;
      }
      if id !in inbound {
        inbound := inbound[id := Entry(session, room, sender)];
        return true;
      }
      var held := inbound[id];
      if !BindingMatches(held.room, room) || !BindingMatches(held.sender, sender) {
        return false;
      }
      changed := false;
      match Compare(held.session, session) {
        case Unconnected => return false;
        case Worse =>
          held := held.(session := session);
          changed := true;
        case Equal =>
        case Better =>
      }
      if held.room == "" && room != "" {
        held := held.(room := room);
        changed := true;
      }
      if held.sender == "" && sender != "" {
        held := held.(sender := sender);
        changed := true;
      }
      assert changed <==> held != inbound[id];
      assert inbound[id := inbound[id]] == inbound;
      inbound := inbound[id := held];
    }

    constructor ()
      ensures inbound == map[]
    {
      inbound := map[];
    }
  }

  /** What an import does: nothing if its key does not give its id, if its room or
      sender is another known one, or if its chain is another; otherwise the lower
      first index and every known binding are kept. */
  lemma {:induction false} ImportOutcome(store: Store, i: Import)
    requires KeyedById(store)
    ensures i.session.id != i.id ==> Inserted(store, i) == store
    ensures i.session.id == i.id && i.id !in store ==>
              Inserted(store, i) == store[i.id := Entry(i.session, i.room, i.sender)]
    ensures i.session.id == i.id && i.id in store ==>
              var h := store[i.id];
              var conflict := || (h.room != "" && i.room != "" && h.room != i.room)
                              || (h.sender != "" && i.sender != "" && h.sender != i.sender)
                              || h.session.chain != i.session.chain;
              var index := if i.session.index < h.session.index then i.session.index else h.session.index;
              Inserted(store, i)
              == if conflict then store
                 else store[i.id := Entry(Session(i.id, h.session.chain, index),
                                          if h.room == "" then i.room else h.room,
                                          if h.sender == "" then i.sender else h.sender)]
  {
  }

  // --- Monotone over any imports ---------------------------------------------------------

  ghost predicate KeyedById(store: Store) { forall id :: id in store ==> store[id].session.id == id }

  /** `later` knows at least what `earlier` knows about the same session. */
  predicate Extends(earlier: Entry, later: Entry) {
    && later.session.id == earlier.session.id && later.session.chain == earlier.session.chain
    && later.session.index <= earlier.session.index
    && (earlier.room != "" ==> later.room == earlier.room)
    && (earlier.sender != "" ==> later.sender == earlier.sender)
  }

  ghost predicate StoreExtends(earlier: Store, later: Store) {
    forall id :: id in earlier ==> id in later && Extends(earlier[id], later[id])
  }

  function Imported(store: Store, imports: seq<Import>): Store
    decreases |imports|
  {
    if imports == [] then store else Imported(Inserted(store, imports[0]), imports[1..])
  }

  lemma InsertedExtends(store: Store, i: Import)
    requires KeyedById(store)
    ensures KeyedById(Inserted(store, i)) && StoreExtends(store, Inserted(store, i))
    ensures forall id :: id in Inserted(store, i) && id !in store ==> id == i.id == i.session.id
    ensures forall id :: id != i.id && id in store ==> Inserted(store, i)[id] == store[id]
  {
  }

  /** Over any sequence of imports an entry's session id is its key, its chain
      never changes, its first index never rises and no known binding changes. */
  lemma {:induction false} ImportsAreMonotone(store: Store, imports: seq<Import>)
    requires KeyedById(store)
    ensures KeyedById(Imported(store, imports)) && StoreExtends(store, Imported(store, imports))
    decreases |imports|
  {
    if imports != [] {
      hide Inserted, Extends;
      var next := Inserted(store, imports[0]);
      InsertedExtends(store, imports[0]);
      ImportsAreMonotone(next, imports[1..]);
      ExtendsIsTransitive(store, next, Imported(store, imports));
    } else {
      EveryStoreExtendsItself(store);
    }
  }

  lemma EveryStoreExtendsItself(store: Store)
    ensures StoreExtends(store, store)
  {
  }

  lemma ExtendsIsTransitive(a: Store, b: Store, c: Store)
    requires StoreExtends(a, b) && StoreExtends(b, c)
    ensures StoreExtends(a, c)
  {
  }

  // --- Decryption guards --------------------------------------------------------------------

  /** The checks `decrypt_megolm` makes before it uses a session. */
  predicate MayDecrypt(store: Store, id: string, room: string, sender: string) {
    && id in store && store[id].room != "" && store[id].room == room
    && (store[id].sender != "" ==> store[id].sender == sender)
  }

  /** A session never serves two rooms, however many imports lie in between. */
  lemma OneRoomPerSession(store: Store, imports: seq<Import>, id: string,
                          room: string, sender: string, room': string, sender': string)
    requires KeyedById(store) && MayDecrypt(store, id, room, sender)
    requires MayDecrypt(Imported(store, imports), id, room', sender')
    ensures room' == room
    ensures store[id].sender != "" ==> sender' == sender
  {
    ImportsAreMonotone(store, imports);
  }

  /** An event stays decryptable under later imports exactly when they leave the
      sender unbound or bind it to the event's sender. */
  lemma StaysDecryptable(store: Store, imports: seq<Import>, id: string, room: string, sender: string)
    requires KeyedById(store) && MayDecrypt(store, id, room, sender)
    ensures id in Imported(store, imports)
    ensures MayDecrypt(Imported(store, imports), id, room, sender)
       <==> Imported(store, imports)[id].sender in {"", sender}
    ensures store[id].sender != "" ==> MayDecrypt(Imported(store, imports), id, room, sender)
  {
    ImportsAreMonotone(store, imports);
  }

  // --- Order does not matter ------------------------------------------------------------------

  /** Imports of one session that agree on everything they know. */
  ghost predicate Agreeing(imports: seq<Import>) {
    forall i, j :: 0 <= i < |imports| && 0 <= j < |imports| ==>
      && imports[i].id == imports[j].id && imports[i].session.id == imports[i].id
      && imports[i].session.chain == imports[j].session.chain
      && BindingMatches(imports[i].room, imports[j].room)
      && BindingMatches(imports[i].sender, imports[j].sender)
  }

  /** `b` is the binding the offers agree on, or empty if none is known. */
  ghost predicate AgreedBinding(b: string, offers: set<string>) {
    (b == "" || b in offers) && forall o :: o in offers && o != "" ==> b == o
  }

  ghost function ImportSet(imports: seq<Import>): set<Import> { set i | i in imports }

  ghost function Rooms(imports: seq<Import>): set<string> { set i | i in imports :: i.room }

  ghost function Senders(imports: seq<Import>): set<string> { set i | i in imports :: i.sender }

  /** The entry is the best of the imports: the least index, every known binding. */
  ghost predicate BestOf(e: Entry, imports: seq<Import>) {
    && (exists i :: i in imports && e.session == i.session)
    && (forall i :: i in imports ==> e.session.index <= i.session.index)
    && AgreedBinding(e.room, Rooms(imports)) && AgreedBinding(e.sender, Senders(imports))
  }

  lemma BestOfOne(i: Import)
    ensures BestOf(Entry(i.session, i.room, i.sender), [i])
  {
    assert i in [i];
  }

  lemma BindingSnoc(b: string, offers: set<string>, o: string)
    requires AgreedBinding(b, offers) && forall x :: x in offers ==> BindingMatches(x, o)
    ensures AgreedBinding(Bound(b, o), offers + {o})
    ensures BindingMatches(b, o)
  {
  }

  lemma BestOfSnoc(e: Entry, imports: seq<Import>, i: Import)
    requires imports != [] && BestOf(e, imports) && Agreeing(imports + [i])
    ensures Compatible(e, i) && BestOf(Upgraded(e, i), imports + [i])
  {
    var all := imports + [i];
    assert all[|imports|] == i;
    forall x | x in imports
      ensures x.id == i.id && x.session.id == x.id && x.session.chain == i.session.chain
      ensures BindingMatches(x.room, i.room) && BindingMatches(x.sender, i.sender)
    {
      var k :| 0 <= k < |imports| && imports[k] == x;
      assert all[k] == x;
    }
    assert i.session.id == i.id;
    assert Rooms(all) == Rooms(imports) + {i.room};
    assert Senders(all) == Senders(imports) + {i.sender};
    BindingSnoc(e.room, Rooms(imports), i.room);
    BindingSnoc(e.sender, Senders(imports), i.sender);
    var u := Upgraded(e, i);
    var w :| w in imports && e.session == w.session;
    assert w in all && i in all;
    assert u.session == w.session || u.session == i.session;
  }

  lemma {:induction false} NewEntryIsBest(store: Store, imports: seq<Import>)
    requires imports != [] && Agreeing(imports) && imports[0].id !in store
    ensures imports[0].id in Imported(store, imports)
    ensures BestOf(Imported(store, imports)[imports[0].id], imports)
    decreases |imports|
  {
    var n, id := |imports| - 1, imports[0].id;
    ImportedSnoc(store, imports[..n], imports[n]);
    assert imports == imports[..n] + [imports[n]];
    if n == 0 {
      BestOfOne(imports[0]);
    } else {
      assert Agreeing(imports[..n]);
      NewEntryIsBest(store, imports[..n]);
      BestOfSnoc(Imported(store, imports[..n])[id], imports[..n], imports[n]);
    }
  }

  lemma {:induction false} ImportedSnoc(store: Store, imports: seq<Import>, i: Import)
    ensures Imported(store, imports + [i]) == Inserted(Imported(store, imports), i)
    decreases |imports|
  {
    hide Inserted;
    if imports != [] {
      ImportedSnoc(Inserted(store, imports[0]), imports[1..], i);
      assert (imports + [i])[1..] == imports[1..] + [i];
    } else {
      assert [] + [i] == [i] && [i][1..] == [];
    }
  }

  lemma BestIsUnique(a: Entry, b: Entry, imports: seq<Import>)
    requires Agreeing(imports) && BestOf(a, imports) && BestOf(b, imports)
    ensures a == b
  {
    var x :| x in imports && a.session == x.session;
    var y :| y in imports && b.session == y.session;
    assert a.session.index == b.session.index;
    BindingIsUnique(a.room, b.room, Rooms(imports));
    BindingIsUnique(a.sender, b.sender, Senders(imports));
  }

  lemma BindingIsUnique(a: string, b: string, offers: set<string>)
    requires AgreedBinding(a, offers) && AgreedBinding(b, offers)
    ensures a == b
  {
  }

  /** Agreeing imports of a session the store does not hold. */
  lemma NewEntryOrder(store: Store, imports: seq<Import>, shuffled: seq<Import>)
    requires imports != [] && Agreeing(imports) && imports[0].id !in store
    requires ImportSet(shuffled) == ImportSet(imports)
    ensures Imported(store, shuffled) == Imported(store, imports)
  {
    var id := imports[0].id;
    SameImports(imports, shuffled);
    NewEntryIsBest(store, imports);
    NewEntryIsBest(store, shuffled);
    var a, b := Imported(store, imports)[id], Imported(store, shuffled)[id];
    assert BestOf(b, imports) by { BestOfSameSet(b, shuffled, imports); }
    BestIsUnique(a, b, imports);
    OthersUntouched(store, imports, id);
    OthersUntouched(store, shuffled, id);
    StoresEqual(store, Imported(store, imports), Imported(store, shuffled), id);
  }

  /** What the store holds for a session, as an import of it. */
  function Held(store: Store, id: string): seq<Import> {
    if id in store then [Import(id, store[id].session, store[id].room, store[id].sender)] else []
  }

  /** Importing on top of a held entry is importing that entry first. */
  lemma HeldFirst(store: Store, imports: seq<Import>, id: string)
    requires id in store ==> store[id].session.id == id
    ensures id !in store - {id} && Imported(store - {id}, Held(store, id) + imports) == Imported(store, imports)
  {
    hide Imported;
    if id in store {
      var held := Held(store, id);
      assert Inserted(store - {id}, held[0]) == store;
      assert (held + imports)[0] == held[0] && (held + imports)[1..] == imports;
      ImportedNext(store - {id}, held + imports);
    } else {
      assert store - {id} == store && [] + imports == imports;
    }
  }

  lemma ImportedNext(store: Store, imports: seq<Import>)
    requires imports != []
    ensures Imported(store, imports) == Imported(Inserted(store, imports[0]), imports[1..])
  {
  }

  /** Imports that agree with each other and with the held entry leave the best of
      all of them. */
  lemma {:induction false} ImportedIsBest(store: Store, imports: seq<Import>, id: string)
    requires imports != [] && imports[0].id == id && Agreeing(Held(store, id) + imports)
    ensures id in Imported(store, imports)
    ensures BestOf(Imported(store, imports)[id], Held(store, id) + imports)
  {
    hide Imported, BestOf;
    var all := Held(store, id) + imports;
    assert all[0].id == id && all[0].session.id == id;
    HeldFirst(store, imports, id);
    NewEntryIsBest(store - {id}, all);
  }

  /** They give the same store in any order and with any repetitions. */
  lemma {:induction false} ImportOrderDoesNotMatter(store: Store, imports: seq<Import>, shuffled: seq<Import>,
                                                    id: string)
    requires imports != [] && imports[0].id == id && Agreeing(Held(store, id) + imports)
    requires ImportSet(shuffled) == ImportSet(imports)
    ensures Imported(store, shuffled) == Imported(store, imports)
  {
    hide Imported, BestOf;
    var held := Held(store, id);
    var all := held + imports;
    assert all[0].id == id && all[0].session.id == id;
    HeldFirst(store, imports, id);
    HeldFirst(store, shuffled, id);
    assert ImportSet(held + shuffled) == ImportSet(held) + ImportSet(shuffled);
    assert ImportSet(all) == ImportSet(held) + ImportSet(imports);
    NewEntryOrder(store - {id}, all, held + shuffled);
  }

  lemma SameImports(imports: seq<Import>, shuffled: seq<Import>)
    requires imports != [] && Agreeing(imports)
    requires ImportSet(shuffled) == ImportSet(imports)
    ensures shuffled != [] && Agreeing(shuffled)
    ensures forall k :: 0 <= k < |shuffled| ==> shuffled[k].id == imports[0].id
    ensures forall k :: 0 <= k < |imports| ==> imports[k].id == imports[0].id
  {
    assert imports[0] in ImportSet(imports);
    assert imports[0] in ImportSet(shuffled);
    forall k | 0 <= k < |shuffled| ensures shuffled[k] in imports {
      assert shuffled[k] in ImportSet(shuffled);
    }
  }

  lemma BestOfSameSet(e: Entry, a: seq<Import>, b: seq<Import>)
    requires BestOf(e, a) && ImportSet(a) == ImportSet(b)
    ensures BestOf(e, b)
  {
    forall i ensures i in a <==> i in b {
      assert i in a <==> i in ImportSet(a);
      assert i in b <==> i in ImportSet(b);
    }
    assert Rooms(a) == Rooms(b) && Senders(a) == Senders(b);
  }

  lemma {:induction false} OthersUntouched(store: Store, imports: seq<Import>, id: string)
    requires forall k :: 0 <= k < |imports| ==> imports[k].id == id
    ensures forall x :: x != id ==> (x in Imported(store, imports) <==> x in store)
    ensures forall x :: x != id && x in store ==> Imported(store, imports)[x] == store[x]
    decreases |imports|
  {
    if imports != [] {
      OthersUntouched(Inserted(store, imports[0]), imports[1..], id);
    }
  }

  lemma StoresEqual(store: Store, a: Store, b: Store, id: string)
    requires id in a && id in b && a[id] == b[id]
    requires forall x :: x != id ==> (x in a <==> x in store) && (x in b <==> x in store)
    requires forall x :: x != id && x in store ==> a[x] == store[x] && b[x] == store[x]
    ensures b == a
  {
    assert forall x :: x in a <==> x in b;
  }
}
