/** The address book: known peers with an optional nickname, in one table whose
    empty text means that none is set. */
module Peers {
  import opened Common

  /** Keys are raw bytes: the migration copies whatever the old file had. */
  type PeerTable = map<Bytes, Bytes>

  datatype PeerError = NotFound | KeyNot32Bytes

  /** An empty nickname is stored like none. */
  function Normal(nickname: Option<Bytes>): Option<Bytes> {
    if nickname == Some([]) then None else nickname
  }

  /** `None`: unknown peer; `Some(None)`: known without a nickname. */
  function LookUp(table: PeerTable, peer: PeerId): Option<Option<Bytes>> {
    if peer !in table then None else Some(Normal(Some(table[peer])))
  }

  /** What every reader sees: the known peers with their nicknames. */
  ghost function Book(table: PeerTable): map<PeerId, Option<Bytes>> {
    map p: PeerId | p in table :: Normal(Some(table[p]))
  }

  function Inserted(table: PeerTable, peer: PeerId, nickname: Option<Bytes>): PeerTable {
    table[peer := if nickname.Some? then nickname.value else []]
  }

  lemma InsertedInBook(table: PeerTable, peer: PeerId, nickname: Option<Bytes>)
    ensures Book(Inserted(table, peer, nickname)) == Book(table)[peer := Normal(nickname)]
  {
  }

  /** A book that lists `out` has each of its peers once, with its nickname. */
  ghost predicate Lists(book: map<PeerId, Option<Bytes>>, out: seq<(PeerId, Option<Bytes>)>) {
    && (forall i :: 0 <= i < |out| ==> out[i].0 in book && book[out[i].0] == out[i].1)
    && (forall i, j :: 0 <= i < j < |out| ==> out[i].0 != out[j].0)
    && (forall p :: p in book ==> exists i :: 0 <= i < |out| && out[i].0 == p)
  }

  class PeerStore {
    var table: PeerTable

    constructor ()
      ensures table == map[]
    {
      table := map[];
    }

    method Upsert(peer: PeerId, nickname: Option<Bytes>)
      modifies this
      ensures Book(table) == Book(old(table))[peer := Normal(nickname)]
    {
      InsertedInBook(table, peer, nickname);
      table := Inserted(table, peer, nickname);
    }

    /** Run alone. */
    method Ensure(peer: PeerId)
      modifies this
      ensures Book(table) == if peer in Book(old(table)) then Book(old(table)) else Book(old(table))[peer := None]
    {
      if peer in table {
        return;
      }
      Upsert(peer, None);
    }

    method SetNickname(peer: PeerId, nickname: Bytes) returns (r: Result<(), PeerError>)
      modifies this
      ensures r.Ok? <==> peer in Book(old(table))
      ensures Book(table) == if r.Ok? then Book(old(table))[peer := Normal(Some(nickname))] else Book(old(table))
    {
      if peer !in table {
        return Err(NotFound);
      }
      Upsert(peer, Some(nickname));
      return Ok(());
    }

    method Get(peer: PeerId) returns (r: Option<Option<Bytes>>)
      ensures r == if peer in Book(table) then Some(Book(table)[peer]) else None
    {
      if peer !in table {
        return None;
      }
      return Some(if table[peer] == [] then None else Some(table[peer]));
    }

    method List() returns (r: Result<seq<(PeerId, Option<Bytes>)>, PeerError>)
      ensures r.Ok? <==> forall key :: key in table ==> |key| == 32
      ensures r.Ok? ==> Lists(Book(table), r.value)
    {
      var out: seq<(PeerId, Option<Bytes>)> := [];
      var rest: set<Bytes> := table.Keys;
      while rest != {}
        invariant rest <= table.Keys
        invariant forall key :: key in table.Keys - rest ==> |key| == 32
        invariant Lists(Book(table - rest), out)
        decreases rest
      {
        var key: Bytes :| key in rest;
        if |key| != 32 {
          return Err(KeyNot32Bytes);
        }
        var peer: PeerId := key;
        ListsOneMore(table, rest, peer, out);
        out := out + [(peer, if table[peer] == [] then None else Some(table[peer]))];
        rest := rest - {peer};
      }
      assert table - rest == table;
      return Ok(out);
    }

    method Remove(peer: PeerId) returns (r: Result<(), PeerError>)
      modifies this
      ensures r.Ok? <==> peer in Book(old(table))
      ensures Book(table) == Book(old(table)) - {peer}
    {
      if peer !in table {
        assert Book(table) - {peer} == Book(table);
        return Err(NotFound);
      }
      table := table - {peer};
      return Ok(());
    }
  }

  lemma ListsOneMore(table: PeerTable, rest: set<Bytes>, peer: PeerId, out: seq<(PeerId, Option<Bytes>)>)
    requires peer in rest && rest <= table.Keys && Lists(Book(table - rest), out)
    ensures Lists(Book(table - (rest - {peer})), out + [(peer, Normal(Some(table[peer])))])
  {
    var before, after := Book(table - rest), Book(table - (rest - {peer}));
    var more := out + [(peer, Normal(Some(table[peer])))];
    assert after == before[peer := Normal(Some(table[peer]))];
    forall p | p in after ensures exists i :: 0 <= i < |more| && more[i].0 == p {
      if p == peer {
        assert more[|out|].0 == p;
      } else {
        var i :| 0 <= i < |out| && out[i].0 == p;
        assert more[i].0 == p;
      }
    }
  }

  // Ensure against other requests

  /** `Ensure` reads in one transaction and writes in another: it saw `seen` and
      writes onto `table`, with any writes of other requests in between. */
  function EnsuredAfter(seen: PeerTable, table: PeerTable, peer: PeerId): PeerTable {
    if peer in seen then table else Inserted(table, peer, None)
  }

  /** Its promise to preserve an existing nickname holds if and only if the
      peer was known when it looked or has no nickname when it writes; nobody
      else's entry is ever touched. */
  lemma EnsurePreservesIff(seen: PeerTable, table: PeerTable, peer: PeerId)
    requires peer in table
    ensures var after := EnsuredAfter(seen, table, peer);
      && (LookUp(after, peer) == LookUp(table, peer) <==> peer in seen || LookUp(table, peer) == Some(None))
      && Book(after) - {peer} == Book(table) - {peer}
  {
  }

  /** While `ring add` ensures a new peer, `peer add --nickname` names it: the
      nickname is lost. */
  lemma EnsureCanLoseNickname(peer: PeerId, nickname: Bytes)
    requires nickname != []
    ensures var named := Inserted(map[], peer, Some(nickname));
      LookUp(named, peer) == Some(Some(nickname)) && LookUp(EnsuredAfter(map[], named, peer), peer) == Some(None)
  {
  }
}
