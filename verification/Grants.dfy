/** The grant table: a set of byte keys, privilege name + NUL + peer identity,
    that stands for a set of (privilege, peer) pairs. */
module Grants {
  import opened Common

  datatype Privilege = BlobList

  /** "blob-list" */
  const BLOB_LIST_NAME: Bytes := [98, 108, 111, 98, 45, 108, 105, 115, 116]

  function PrivilegeName(p: Privilege): Bytes {
    match p case BlobList => BLOB_LIST_NAME
  }

  function PrivilegeOfName(name: Bytes): Option<Privilege> {
    if name == BLOB_LIST_NAME then Some(BlobList) else None
  }

  function RawKey(name: Bytes, peer: PeerId): Bytes {
    name + [0] + peer
  }

  /** Index of the first NUL byte. */
  function FirstNul(key: Bytes): (r: Option<nat>)
    ensures r.None? <==> 0 !in key
    ensures r.Some? ==> r.value < |key| && key[r.value] == 0 && 0 !in key[..r.value]
  {
    if key == [] then None
    else if key[0] == 0 then Some(0)
    else
      var rest :- FirstNul(key[1..]);
      assert key[..rest + 1] == [key[0]] + key[1..][..rest];
      Some(rest + 1)
  }

  function SplitKey(key: Bytes): Option<(Bytes, PeerId)> {
    var sep :- FirstNul(key);
    if |key| - sep - 1 == 32 then Some((key[..sep], key[sep + 1..])) else None
  }

  /** Splitting undoes joining for every peer identity, NUL bytes in it or not,
      exactly when the privilege name is free of NUL. */
  lemma SplitInvertsIffNulFree(name: Bytes, peer: PeerId)
    ensures SplitKey(RawKey(name, peer)) == Some((name, peer)) <==> 0 !in name
  {
    var key := RawKey(name, peer);
    assert key[|name|] == 0;
    var sep := FirstNul(key).value;
    assert forall i :: 0 <= i < sep ==> key[i] in key[..sep];
    assert sep <= |name|;
    if 0 !in name {
      assert forall i :: 0 <= i < |name| ==> key[i] == name[i];
      assert key[..sep] == name && key[sep + 1..] == peer;
    }
  }

  lemma RawKeyIsInjective(name: Bytes, peer: PeerId, name': Bytes, peer': PeerId)
    requires RawKey(name, peer) == RawKey(name', peer')
    ensures name == name' && peer == peer'
  {
    var key := RawKey(name, peer);
    assert |key| == |name| + 33 == |name'| + 33;
    assert key[..|name|] == name == name';
    assert key[|name| + 1..] == peer == peer';
  }

  type Pair = (Privilege, PeerId)

  function GrantKey(p: Pair): Bytes {
    RawKey(PrivilegeName(p.0), p.1)
  }

  /** The key in the table: the name, a NUL byte, the 32 bytes of the peer. */
  lemma GrantKeySpelling(peer: PeerId)
    ensures var key := GrantKey((BlobList, peer));
      && |key| == 42
      && (forall i :: 0 <= i < 9 ==> key[i] == "blob-list"[i] as int)
      && key[9] == 0 && key[10..] == peer
  {
  }

  lemma GrantKeyIsInjective(p: Pair, q: Pair)
    requires GrantKey(p) == GrantKey(q)
    ensures p == q
  {
    RawKeyIsInjective(PrivilegeName(p.0), p.1, PrivilegeName(q.0), q.1);
    assert p.0 == BlobList && q.0 == BlobList;
  }

  datatype KeyError = MalformedKey | UnknownPrivilege

  function DecodeGrantKey(key: Bytes): Result<Pair, KeyError> {
    match SplitKey(key)
    case None => Err(MalformedKey)
    case Some((name, peer)) =>
      match PrivilegeOfName(name)
      case None => Err(UnknownPrivilege)
      case Some(p) => Ok((p, peer))
  }

  /** Only the keys of pairs decode, and each to its own pair. */
  lemma DecodeIffGrantKey(key: Bytes, p: Pair)
    ensures DecodeGrantKey(key) == Ok(p) <==> key == GrantKey(p)
  {
    SplitInvertsIffNulFree(PrivilegeName(p.0), p.1);
    assert p.0 == BlobList && p == (p.0, p.1);
    if DecodeGrantKey(key) == Ok(p) {
      var sep := FirstNul(key).value;
      assert key == key[..sep] + [key[sep]] + key[sep + 1..];
      assert SplitKey(key) == Some((key[..sep], key[sep + 1..]));
      assert key[..sep] == PrivilegeName(p.0) && key[sep + 1..] == p.1;
      assert GrantKey(p) == key[..sep] + [0] + key[sep + 1..];
    }
  }

  // Any sequence of grants and revokes

  datatype GrantOp = Grant(pair: Pair) | Revoke(pair: Pair)

  function ApplyToTable(table: set<Bytes>, op: GrantOp): set<Bytes> {
    match op
    case Grant(p) => table + {GrantKey(p)}
    case Revoke(p) => table - {GrantKey(p)}
  }

  function ApplyToPairs(pairs: set<Pair>, op: GrantOp): set<Pair> {
    match op
    case Grant(p) => pairs + {p}
    case Revoke(p) => pairs - {p}
  }

  function TableAfter(ops: seq<GrantOp>): set<Bytes> {
    if ops == [] then {} else ApplyToTable(TableAfter(ops[..|ops| - 1]), ops[|ops| - 1])
  }

  function PairsAfter(ops: seq<GrantOp>): set<Pair> {
    if ops == [] then {} else ApplyToPairs(PairsAfter(ops[..|ops| - 1]), ops[|ops| - 1])
  }

  /** The table holds the keys of the pairs and nothing else. */
  ghost predicate Represents(table: set<Bytes>, pairs: set<Pair>) {
    && (forall p :: p in pairs <==> GrantKey(p) in table)
    && (forall key :: key in table ==> DecodeGrantKey(key).Ok?)
  }

  lemma ApplyKeepsRepresents(table: set<Bytes>, pairs: set<Pair>, op: GrantOp)
    requires Represents(table, pairs)
    ensures Represents(ApplyToTable(table, op), ApplyToPairs(pairs, op))
  {
    forall p: Pair ensures GrantKey(p) == GrantKey(op.pair) <==> p == op.pair {
      if GrantKey(p) == GrantKey(op.pair) {
        GrantKeyIsInjective(p, op.pair);
      }
    }
    DecodeIffGrantKey(GrantKey(op.pair), op.pair);
  }

  lemma {:induction false} TableRefinesPairs(ops: seq<GrantOp>)
    ensures Represents(TableAfter(ops), PairsAfter(ops))
  {
    if ops != [] {
      TableRefinesPairs(ops[..|ops| - 1]);
      ApplyKeepsRepresents(TableAfter(ops[..|ops| - 1]), PairsAfter(ops[..|ops| - 1]), ops[|ops| - 1]);
    }
  }

  class GrantStore {
    var table: set<Bytes>
    /** The pairs the table stands for. */
    ghost var pairs: set<Pair>

    ghost predicate Valid()
      reads this
    {
      Represents(table, pairs)
    }

    constructor ()
      ensures Valid() && pairs == {}
    {
      table, pairs := {}, {};
    }

    method Grant(p: Privilege, peer: PeerId)
      requires Valid()
      modifies this
      ensures Valid() && pairs == old(pairs) + {(p, peer)}
    {
      ghost var op := GrantOp.Grant((p, peer));
      ApplyKeepsRepresents(table, pairs, op);
      table := table + {GrantKey((p, peer))};
      pairs := ApplyToPairs(pairs, op);
    }

    method Revoke(p: Privilege, peer: PeerId)
      requires Valid()
      modifies this
      ensures Valid() && pairs == old(pairs) - {(p, peer)}
    {
      ghost var op := GrantOp.Revoke((p, peer));
      ApplyKeepsRepresents(table, pairs, op);
      table := table - {GrantKey((p, peer))};
      pairs := ApplyToPairs(pairs, op);
    }

    method HasGrant(p: Privilege, peer: PeerId) returns (r: bool)
      requires Valid()
      ensures r <==> (p, peer) in pairs
    {
      r := GrantKey((p, peer)) in table;
    }

    /** Every pair exactly once, unless some key of the table is not one that
        this store writes. */
    method List() returns (r: Result<seq<Pair>, KeyError>)
      ensures r.Ok? <==> forall key :: key in table ==> DecodeGrantKey(key).Ok?
      ensures r.Ok? ==> forall p: Pair :: p in r.value <==> GrantKey(p) in table
      ensures r.Ok? ==> forall i, j :: 0 <= i < j < |r.value| ==> r.value[i] != r.value[j]
      ensures Valid() ==> r.Ok? && forall p :: p in r.value <==> p in pairs
    {
      var out: seq<Pair> := [];
      var rest := table;
      while rest != {}
        invariant rest <= table
        invariant forall key :: key in table - rest ==> DecodeGrantKey(key).Ok?
        invariant forall p: Pair :: p in out <==> GrantKey(p) in table - rest
        invariant forall i, j :: 0 <= i < j < |out| ==> out[i] != out[j]
        decreases rest
      {
        var key :| key in rest;
        var decoded := DecodeGrantKey(key);
        if decoded.Err? {
          return Err(decoded.error);
        }
        DecodeIffGrantKey(key, decoded.value);
        forall p: Pair | GrantKey(p) == key ensures p == decoded.value {
          GrantKeyIsInjective(p, decoded.value);
        }
        out := out + [decoded.value];
        rest := rest - {key};
      }
      return Ok(out);
    }
  }
}
