/** The connection tracker in place: tables of mutable records, proved against the state machine. */
module Tracker {
  import opened Wrappers
  import opened Analytics
  import opened QuicMerge
  import opened Connections
  import opened TrackerModel
  import opened TrafficTotals
  import HistoricKey
  import Eviction

  /** Of the table without `rest`, the expired entries have been listed. */
  ghost predicate Selected(
    table: map<string, Conn>, expired: Conn -> bool, rest: set<string>, keys: seq<string>, removed: seq<Conn>)
  {
    && Distinct(keys)
    && (forall k :: k in keys <==> k in table && k !in rest && expired(table[k]))
    && removed == Entries(table, keys)
  }

  lemma SelectOne(
    table: map<string, Conn>, expired: Conn -> bool, rest: set<string>, keys: seq<string>, removed: seq<Conn>,
    k: string)
    requires Selected(table, expired, rest, keys, removed) && k in rest && k in table
    ensures if expired(table[k]) then Selected(table, expired, rest - {k}, keys + [k], removed + [table[k]])
            else Selected(table, expired, rest - {k}, keys, removed)
  {
  }

  class ConnectionTracker {
    const config: Config
    const ext: Extractor
    var connections: map<string, Connection>
    var historic: map<string, Conn>
    var quicMap: map<string, string>
    ghost var gone: seq<Conn>
    ghost var log: seq<Event>
    ghost var Repr: set<object>

    /** Each entry owns its record; no two share an object. */
    ghost predicate Owns()
      reads this, Repr
    {
      && this in Repr
      && (forall k :: k in connections ==>
            connections[k] in Repr && this !in connections[k].Footprint() && connections[k].Footprint() <= Repr)
      && (forall j, k :: j in connections && k in connections && j != k ==>
            connections[j].Footprint() !! connections[k].Footprint())
    }

    ghost function Table(): map<string, Conn>
      requires Owns()
      reads this, Repr
    {
      map k | k in connections :: connections[k].Value()
    }

    ghost function Abs(): State
      requires Owns()
      reads this, Repr
    {
      State(Table(), historic, quicMap, gone, log)
    }

    ghost predicate Valid()
      reads this, Repr
    {
      Owns() && Inv(config, ext, Abs())
    }

    constructor (config: Config, ext: Extractor)
      ensures Valid() && fresh(Repr)
      ensures this.config == config && this.ext == ext && Abs() == INITIAL
    {
      this.config, this.ext := config, ext;
      connections, historic, quicMap := map[], map[], map[];
      gone, log := [], [];
      Repr := {this};
      new;
      assert Table() == map[];
    }

    lemma TableSize()
      requires Owns()
      ensures |Table()| == |connections|
    {
      assert Table().Keys == connections.Keys;
      assert |Table().Keys| == |Table()| && |connections.Keys| == |connections|;
    }

    /** Changes to the tracker's own bookkeeping leave the table alone. */
    twostate lemma TableUntouched()
      requires old(Owns()) && connections == old(connections) && Repr == old(Repr)
      requires forall o :: o in Repr && o != this ==> unchanged(o)
      ensures Owns() && Table() == old(Table())
    {
      forall k | k in connections
        ensures connections[k].Value() == old(connections[k].Value())
        ensures connections[k].Footprint() == old(connections[k].Footprint())
      {
        assert connections[k] in old(connections[k].Footprint());
      }
    }

    /** Changing one record in place changes one entry of the table. */
    twostate lemma OneEntryChanged(key: string)
      requires old(Owns()) && key in connections && connections == old(connections) && Repr == old(Repr)
      requires connections[key].analytics == old(connections[key].analytics)
      requires forall o :: o in Repr && o !in old(connections[key].Footprint()) ==> unchanged(o)
      ensures Owns()
      ensures Table() == old(Table())[key := connections[key].Value()]
    {
      assert this !in old(connections[key].Footprint());
      forall k | k in connections && k != key
        ensures connections[k].Value() == old(connections[k].Value())
        ensures connections[k].Footprint() == old(connections[k].Footprint())
      {
        assert old(connections[k].Footprint()) !! old(connections[key].Footprint());
        assert connections[k] in old(connections[k].Footprint());
      }
    }

    /** The entry exists: fold the arrival into its record, touching no other. */
    method UpdateEntry(key: string, a: Arrival) returns (deltas: Deltas)
      requires Owns() && key in connections
      modifies connections[key], connections[key].analytics
      ensures Owns()
      ensures Table() == old(Table())[key := MergeWith(ext, old(Table())[key], a)]
      ensures deltas == MergeDeltas(old(Table())[key], a.packet)
    {
      deltas := connections[key].MergeArrival(ext, a);
      OneEntryChanged(key);
    }

    /** A record of its own under a new key adds one entry to the table. */
    twostate lemma OneEntryAdded(key: string, new conn: Connection)
      requires old(Owns()) && key !in old(connections) && connections == old(connections)[key := conn]
      requires Repr == old(Repr) + conn.Footprint() && conn.Footprint() !! old(Repr)
      requires forall k :: k in old(connections) ==>
                 && connections[k].Value() == old(connections[k].Value())
                 && connections[k].Footprint() == old(connections[k].Footprint())
      ensures Owns()
      ensures Table() == old(Table())[key := conn.Value()]
    {
      assert conn in conn.Footprint();
      OwnersStayApart(key, conn);
    }

    twostate lemma OwnersStayApart(key: string, new conn: Connection)
      requires old(Owns()) && key !in old(connections) && connections == old(connections)[key := conn]
      requires Repr == old(Repr) + conn.Footprint() && conn.Footprint() !! old(Repr)
      requires forall k :: k in old(connections) ==>
                 connections[k].Footprint() == old(connections[k].Footprint())
      ensures Owns()
    {
      assert conn in conn.Footprint();
      forall k | k in old(connections)
        ensures connections[k].Footprint() <= old(Repr) && connections[k].Footprint() !! conn.Footprint()
      {
      }
    }

    static method NewRecord(a: Arrival) returns (conn: Connection)
      ensures fresh(conn.Footprint()) && conn.Value() == CreateWith(a)
    {
      conn := new Connection.FromPacket(a.packet, a.now);
      conn.SampleRtt(a.rtt);
    }

    /** The entry does not exist: create it. */
    method InsertEntry(key: string, a: Arrival)
      requires Owns() && key !in connections
      modifies this`connections, this`Repr
      ensures Owns() && fresh(Repr - old(Repr))
      ensures Table() == old(Table())[key := CreateWith(a)]
    {
      var conn := NewRecord(a);
      connections := connections[key := conn];
      Repr := Repr + conn.Footprint();
      OneEntryAdded(key, conn);
    }

    /** Packets of a known QUIC connection ID go where the first one went. */
    method RouteKey(p: Packet) returns (key: string)
      requires Owns()
      modifies this`quicMap
      ensures Owns() && Abs() == old(Abs()).(quic := quicMap)
      ensures (key, quicMap) == Route(config, old(quicMap), p)
      ensures (forall id :: !Shows(p, id)) ==> key == p.connectionKey && quicMap == old(quicMap)
      ensures forall id :: Shows(p, id) ==>
                && id in quicMap && quicMap[id] == key
                && key == if id in old(quicMap) then old(quicMap)[id] else p.connectionKey
    {
      key := p.connectionKey;
      if p.protocol.UDP? && p.dpi.Some? && p.dpi.value.Quic? && p.dpi.value.quic.connectionIdHex.Some? {
        var id := p.dpi.value.quic.connectionIdHex.value;
        assert Shows(p, id);
        if id in quicMap {
          key := quicMap[id];
        } else {
          if |quicMap| >= config.maxQuicMappings {
            quicMap := map[];
          }
          quicMap := quicMap[id := key];
        }
      }
      TableUntouched();
    }

    method Upsert(key: string, a: Arrival) returns (created: bool, deltas: Deltas)
      requires Owns()
      modifies Repr
      ensures Owns() && fresh(Repr - old(Repr))
      ensures Table() == old(Table())[key := FoldIn(ext, old(Table()), key, a)]
      ensures deltas == Reported(old(Table()), key, a)
      ensures created <==> key !in old(connections)
      ensures historic == old(historic) && quicMap == old(quicMap) && gone == old(gone) && log == old(log)
    {
      created, deltas := false, Deltas(0, 0, 0);
      if key in connections {
        deltas := UpdateEntry(key, a);
      } else {
        created := true;
        InsertEntry(key, a);
      }
    }

    /** Turns the arrival away when it would need a new entry and the table is full. */
    method AdmitArrival(key: string, a: Arrival) returns (out: Outcome)
      requires Owns()
      modifies Repr
      ensures Owns() && fresh(Repr - old(Repr))
      ensures (Abs(), out) == Admit(config, ext, old(Abs()), key, a)
    {
      TableSize();
      if key !in connections && |connections| >= config.maxConnections {
        log := log + [Dropped(key)];
        TableUntouched();
        out := Outcome(key, false, true, Deltas(0, 0, 0), a.rtt);
      } else {
        var created, deltas := Upsert(key, a);
        label Folded:
        log := log + [Accepted(key, a, deltas)];
        TableUntouched@Folded();
        out := Outcome(key, created, false, deltas, a.rtt);
      }
    }

    method IngestArrival(a: Arrival) returns (out: Outcome)
      requires Owns()
      modifies Repr
      ensures Owns() && fresh(Repr - old(Repr))
      ensures (Abs(), out) == RouteAndAdmit(config, ext, old(Abs()), a)
    {
      var key := RouteKey(a.packet);
      out := AdmitArrival(key, a);
    }

    /** Folds one packet into the table. `sample` is what the RTT tracker would answer. */
    method IngestAt(p: Packet, now: int, sample: Option<nat>) returns (out: Outcome)
      requires Valid()
      modifies Repr
      ensures Valid() && fresh(Repr - old(Repr))
      ensures (Abs(), out) == Ingest(config, ext, old(Abs()), p, now, sample)
    {
      var a := Arrival(p, now, MeasuredRtt(p, sample));
      ArrivalKeepsInv(config, ext, Abs(), a);
      out := IngestArrival(a);
    }

    /** The keys to remove, in some order of iteration, with copies of their records. */
    method SelectExpired(expired: Conn -> bool) returns (keys: seq<string>, removed: seq<Conn>)
      requires Owns()
      ensures Distinct(keys)
      ensures forall k :: k in keys <==> k in connections && expired(Table()[k])
      ensures removed == Entries(Table(), keys)
    {
      ghost var table := Table();
      keys, removed := [], [];
      var rest := connections.Keys;
      while rest != {}
        invariant rest <= table.Keys && table == Table()
        invariant Selected(table, expired, rest, keys, removed)
        decreases rest
      {
        var k :| k in rest;
        var c := connections[k].Value();
        assert c == table[k];
        SelectOne(table, expired, rest, keys, removed, k);
        if expired(c) {
          keys := keys + [k];
          removed := removed + [c];
        }
        rest := rest - {k};
      }
    }

    /** Files the removed records as closed, then trims the archive to its limit. */
    method ArchiveRemoved(keys: seq<string>, removed: seq<Conn>, ghost table: map<string, Conn>, now: int)
      requires (forall k :: k in keys ==> k in table) && removed == Entries(table, keys)
      modifies this`historic
      ensures Trimmed(config, WithArchived(old(historic), table, keys, now), historic)
    {
      for i := 0 to |keys|
        invariant historic == WithArchived(old(historic), table, keys[..i], now)
      {
        var c := removed[i].(isHistoric := true, closedAt := Some(now));
        assert removed[i] == table[keys[i]];
        assert keys[..i + 1][..i] == keys[..i];
        historic := historic[HistoricKey.HistoricKey(keys[i], removed[i].createdAt) := c];
      }
      assert keys[..|keys|] == keys;
      if |historic| > config.maxHistoric {
        var kept := Eviction.RemoveOldest(historic, ClosedTimes(historic), |historic| - config.maxHistoric);
        historic := kept;
      }
    }

    method SweepTables(expired: Conn -> bool, now: int) returns (removed: seq<Conn>, keys: seq<string>)
      requires Owns()
      modifies this
      ensures Owns() && Repr == old(Repr)
      ensures Sweep(config, old(Abs()), keys, expired, now, Abs())
      ensures removed == Entries(old(Table()), keys)
    {
      ghost var before := Abs();
      keys, removed := SelectExpired(expired);
      RemoveEntries(keys);
      ghost var left := Table();
      label Removed:
      SettleRemoved(keys, removed, before.active, now);
      TableUntouched@Removed();
      assert Abs() == State(left, historic, quicMap, gone, log);
    }

    /** Everything a sweep does besides taking entries out of the live table. */
    method SettleRemoved(keys: seq<string>, removed: seq<Conn>, ghost table: map<string, Conn>, now: int)
      requires (forall k :: k in keys ==> k in table) && removed == Entries(table, keys)
      modifies this`historic, this`quicMap, this`gone, this`log
      ensures if config.keepHistoric then Trimmed(config, WithArchived(old(historic), table, keys, now), historic)
              else historic == old(historic)
      ensures quicMap == map id | id in old(quicMap) && old(quicMap)[id] !in keys :: old(quicMap)[id]
      ensures gone == old(gone) + removed && log == old(log) + [Swept(keys)]
    {
      if config.keepHistoric {
        ArchiveRemoved(keys, removed, table, now);
      }
      if keys != [] {
        quicMap := map id | id in quicMap && quicMap[id] !in keys :: quicMap[id];
      }
      gone := gone + removed;
      log := log + [Swept(keys)];
    }

    method RemoveEntries(keys: seq<string>)
      requires Owns()
      modifies this`connections
      ensures Owns() && Table() == old(Table()) - (set k | k in keys)
    {
      connections := connections - (set k | k in keys);
      assert Table() == old(Table()) - (set k | k in keys);
    }

    /**
     * Removes the connections `expired` selects and returns them as they were; drops the QUIC
     * mappings that lead to them.
     */
    method Cleanup(expired: Conn -> bool, now: int) returns (removed: seq<Conn>, ghost keys: seq<string>)
      requires Valid()
      modifies this
      ensures Valid() && Repr == old(Repr)
      ensures Sweep(config, old(Abs()), keys, expired, now, Abs())
      ensures removed == Entries(old(Table()), keys)
    {
      var removedKeys;
      removed, removedKeys := SweepTables(expired, now);
      keys := removedKeys;
      StepKeepsInv(config, ext, old(Abs()), SweepOp(keys, expired, now), Abs());
    }

    method Clear()
      requires Valid()
      modifies this
      ensures Valid() && Repr == old(Repr)
      ensures Abs() == TrackerModel.Clear(old(Abs()))
      ensures connections == map[] && historic == map[] && quicMap == map[]
    {
      connections, historic, quicMap := map[], map[], map[];
      gone, log := [], log + [Cleared];
      assert Table() == map[];
      StepKeepsInv(config, ext, old(Abs()), ClearOp, Abs());
    }
  }
}
