/** Matching captured packets to the connections of the sidecar file, by addresses and time. */
module PcapEnrich {
  import opened Wrappers

  /** A connection of the sidecar; either timestamp can be missing. */
  datatype Info = Info(pid: Option<nat>, processName: Option<string>, firstSeen: Option<real>, lastSeen: Option<real>)

  /** A line that is blank, that is not JSON, or that holds a record. */
  datatype Line = Blank | Malformed | Record(protocol: string, local: string, remote: string, info: Info)

  datatype Key = Key(protocol: string, source: string, destination: string)

  type Lookup = map<Key, seq<Info>>

  predicate IsFiled(line: Line, upper: string -> string) {
    line.Record? && upper(line.protocol) != "" && line.local != "" && line.remote != ""
  }

  function Under(lookup: Lookup, key: Key): seq<Info> { if key in lookup then lookup[key] else [] }

  /** The copies of its connection that a line puts under a key: two if both ends are the same. */
  function Copies(line: Line, upper: string -> string, key: Key): seq<Info> {
    if !IsFiled(line, upper) then []
    else
      var p := upper(line.protocol);
      (if key == Key(p, line.local, line.remote) then [line.info] else [])
      + if key == Key(p, line.remote, line.local) then [line.info] else []
  }

  function Filed(lines: seq<Line>, upper: string -> string, key: Key): seq<Info> {
    if lines == [] then []
    else Filed(lines[..|lines| - 1], upper, key) + Copies(lines[|lines| - 1], upper, key)
  }

  ghost predicate NoneEmpty(lookup: Lookup) { forall key :: key in lookup ==> lookup[key] != [] }

  method LoadConnections(lines: seq<Line>, upper: string -> string) returns (lookup: Lookup)
    ensures forall key :: Under(lookup, key) == Filed(lines, upper, key)
    ensures forall key :: key in lookup <==> Filed(lines, upper, key) != []
  {
    lookup := map[];
    for n := 0 to |lines|
      invariant NoneEmpty(lookup)
      invariant forall key :: Under(lookup, key) == Filed(lines[..n], upper, key)
    {
      assert lines[..n + 1][..n] == lines[..n];
      lookup := FileLine(lookup, lines[n], upper);
    }
    assert lines[..|lines|] == lines;
    forall key
      ensures key in lookup <==> Filed(lines, upper, key) != []
    {
      assert Under(lookup, key) == Filed(lines, upper, key);
    }
  }

  method FileLine(lookup: Lookup, line: Line, upper: string -> string) returns (grown: Lookup)
    requires NoneEmpty(lookup)
    ensures NoneEmpty(grown)
    ensures forall key :: Under(grown, key) == Under(lookup, key) + Copies(line, upper, key)
  {
    grown := lookup;
    if line.Record? {
      var proto := upper(line.protocol);
      if proto != "" && line.local != "" && line.remote != "" {
        grown := Append(grown, Key(proto, line.local, line.remote), line.info);
        grown := Append(grown, Key(proto, line.remote, line.local), line.info);
      }
    }
  }

  method Append(lookup: Lookup, key: Key, info: Info) returns (grown: Lookup)
    requires NoneEmpty(lookup)
    ensures NoneEmpty(grown)
    ensures forall k :: Under(grown, k) == Under(lookup, k) + if k == key then [info] else []
  {
    grown := lookup;
    if key !in grown {
      grown := grown[key := []];
    }
    grown := grown[key := grown[key] + [info]];
  }

  predicate IsTimed(c: Info) { c.firstSeen.Some? && c.lastSeen.Some? }

  /** How far a moment lies outside a connection's lifetime. */
  function Distance(c: Info, time: real): real
    requires IsTimed(c)
  {
    if time < c.firstSeen.value then c.firstSeen.value - time
    else if time > c.lastSeen.value then time - c.lastSeen.value
    else 0.0
  }

  predicate InSlack(c: Info, time: real, slack: real) {
    IsTimed(c) && c.firstSeen.value - slack <= time <= c.lastSeen.value + slack
  }

  function Gap(x: real, y: real): real { if x < y then y - x else x - y }

  /**
   * That is the distance from the lifetime as an interval: no moment x in it is nearer, one is as
   * near, and being in slack means being at most that far away.
   */
  lemma DistanceLaw(c: Info, time: real, slack: real, x: real) returns (nearest: real)
    requires IsTimed(c) && c.firstSeen.value <= c.lastSeen.value && slack >= 0.0
    ensures c.firstSeen.value <= x <= c.lastSeen.value ==> Distance(c, time) <= Gap(time, x)
    ensures c.firstSeen.value <= nearest <= c.lastSeen.value && Distance(c, time) == Gap(time, nearest)
    ensures InSlack(c, time, slack) <==> Distance(c, time) <= slack
  {
    nearest := if time < c.firstSeen.value then c.firstSeen.value
               else if time > c.lastSeen.value then c.lastSeen.value
               else time;
  }

  /** Number i is the nearest connection in slack, and the first of the nearest. */
  ghost predicate IsNearest(conns: seq<Info>, time: real, slack: real, i: nat) {
    && i < |conns| && InSlack(conns[i], time, slack)
    && forall j :: 0 <= j < |conns| && InSlack(conns[j], time, slack) ==>
         && Distance(conns[i], time) <= Distance(conns[j], time)
         && (j < i ==> Distance(conns[i], time) < Distance(conns[j], time))
  }

  ghost predicate IsFirstUntimed(conns: seq<Info>, i: nat) {
    && i < |conns| && !IsTimed(conns[i])
    && forall j :: 0 <= j < i ==> IsTimed(conns[j])
  }

  /** Nearest in slack, else first without timestamps, else nothing. */
  ghost predicate IsAnswer(conns: seq<Info>, time: real, slack: real, answer: Option<Info>) {
    if exists j :: 0 <= j < |conns| && InSlack(conns[j], time, slack) then
      exists i: nat :: IsNearest(conns, time, slack, i) && answer == Some(conns[i])
    else if exists j :: 0 <= j < |conns| && !IsTimed(conns[j]) then
      exists i: nat :: IsFirstUntimed(conns, i) && answer == Some(conns[i])
    else
      answer == None
  }

  /** What the search holds after looking at `conns`: no score means nothing in slack so far. */
  ghost predicate BestSoFar(conns: seq<Info>, time: real, slack: real, best: Option<Info>, score: Option<real>) {
    if score.Some? then
      exists i: nat :: IsNearest(conns, time, slack, i)
                       && best == Some(conns[i]) && score.value == Distance(conns[i], time)
    else
      && (forall j :: 0 <= j < |conns| ==> !InSlack(conns[j], time, slack))
      && (if best.Some? then exists i: nat :: IsFirstUntimed(conns, i) && best == Some(conns[i])
          else forall j :: 0 <= j < |conns| ==> IsTimed(conns[j]))
  }

  /** A connection that is out of slack, or no nearer, changes nothing. */
  lemma SkipFarther(conns: seq<Info>, c: Info, time: real, slack: real, best: Option<Info>, score: Option<real>)
    requires BestSoFar(conns, time, slack, best, score)
    requires if InSlack(c, time, slack) then score.Some? && score.value <= Distance(c, time)
             else IsTimed(c) || best.Some?
    ensures BestSoFar(conns + [c], time, slack, best, score)
  {
    var all := conns + [c];
    if score.Some? {
      var i: nat :| IsNearest(conns, time, slack, i)
                    && best == Some(conns[i]) && score.value == Distance(conns[i], time);
      assert IsNearest(all, time, slack, i) && all[i] == conns[i];
    } else if best.Some? {
      var i: nat :| IsFirstUntimed(conns, i) && best == Some(conns[i]);
      assert IsFirstUntimed(all, i) && all[i] == conns[i];
    }
  }

  lemma TakeNearer(conns: seq<Info>, c: Info, time: real, slack: real, best: Option<Info>, score: Option<real>)
    requires BestSoFar(conns, time, slack, best, score)
    requires InSlack(c, time, slack) && (score.Some? ==> Distance(c, time) < score.value)
    ensures BestSoFar(conns + [c], time, slack, Some(c), Some(Distance(c, time)))
  {
    var all := conns + [c];
    if score.Some? {
      var i: nat :| IsNearest(conns, time, slack, i)
                    && best == Some(conns[i]) && score.value == Distance(conns[i], time);
    }
    assert IsNearest(all, time, slack, |conns|) && all[|conns|] == c;
  }

  lemma TakeFirstUntimed(conns: seq<Info>, c: Info, time: real, slack: real)
    requires BestSoFar(conns, time, slack, None, None) && !IsTimed(c)
    ensures BestSoFar(conns + [c], time, slack, Some(c), None)
  {
    var all := conns + [c];
    assert IsFirstUntimed(all, |conns|) && all[|conns|] == c;
  }

  lemma BestIsAnswer(conns: seq<Info>, time: real, slack: real, best: Option<Info>, score: Option<real>)
    requires BestSoFar(conns, time, slack, best, score)
    ensures IsAnswer(conns, time, slack, best)
  {
    if score.Some? {
      var i: nat :| IsNearest(conns, time, slack, i)
                    && best == Some(conns[i]) && score.value == Distance(conns[i], time);
    } else if best.Some? {
      var i: nat :| IsFirstUntimed(conns, i) && best == Some(conns[i]);
    }
  }

  /** `bestScore` is None while it would be infinite. */
  method FindMatchingConnection(lookup: Lookup, key: Key, time: real, slack: real) returns (bestMatch: Option<Info>)
    ensures IsAnswer(Under(lookup, key), time, slack, bestMatch)
  {
    var connections := Under(lookup, key);
    bestMatch := None;
    var bestScore: Option<real> := None;
    for n := 0 to |connections|
      invariant BestSoFar(connections[..n], time, slack, bestMatch, bestScore)
      invariant bestScore.Some? ==> bestMatch.Some?
    {
      var c := connections[n];
      assert connections[..n + 1] == connections[..n] + [c];
      if c.firstSeen.None? || c.lastSeen.None? {
        if bestMatch.None? {
          TakeFirstUntimed(connections[..n], c, time, slack);
          bestMatch := Some(c);
        } else {
          SkipFarther(connections[..n], c, time, slack, bestMatch, bestScore);
        }
      } else {
        var first, last := c.firstSeen.value, c.lastSeen.value;
        if first - slack <= time && time <= last + slack {
          var score := 0.0;
          if time < first {
            score := first - time;
          } else if time > last {
            score := time - last;
          }
          if bestScore.None? || score < bestScore.value {
            TakeNearer(connections[..n], c, time, slack, bestMatch, bestScore);
            bestScore, bestMatch := Some(score), Some(c);
          } else {
            SkipFarther(connections[..n], c, time, slack, bestMatch, bestScore);
          }
        } else {
          SkipFarther(connections[..n], c, time, slack, bestMatch, bestScore);
        }
      }
    }
    assert connections[..|connections|] == connections;
    BestIsAnswer(connections, time, slack, bestMatch, bestScore);
  }

  lemma AnswerIsUnique(conns: seq<Info>, time: real, slack: real, a: Option<Info>, b: Option<Info>)
    requires IsAnswer(conns, time, slack, a) && IsAnswer(conns, time, slack, b)
    ensures a == b
  {
    if exists j :: 0 <= j < |conns| && InSlack(conns[j], time, slack) {
      var i: nat :| IsNearest(conns, time, slack, i) && a == Some(conns[i]);
      var k: nat :| IsNearest(conns, time, slack, k) && b == Some(conns[k]);
      assert i == k;
    } else if exists j :: 0 <= j < |conns| && !IsTimed(conns[j]) {
      var i: nat :| IsFirstUntimed(conns, i) && a == Some(conns[i]);
      var k: nat :| IsFirstUntimed(conns, k) && b == Some(conns[k]);
      assert i == k;
    }
  }

  lemma {:induction false} FiledBothWays(lines: seq<Line>, upper: string -> string, p: string, a: string, b: string)
    ensures Filed(lines, upper, Key(p, a, b)) == Filed(lines, upper, Key(p, b, a))
  {
    if lines != [] {
      FiledBothWays(lines[..|lines| - 1], upper, p, a, b);
    }
  }

  /** Whichever end of a connection sent the packet, the match is the same. */
  lemma DirectionDoesNotMatter(
    lines: seq<Line>, upper: string -> string, lookup: Lookup, p: string, a: string, b: string, time: real, slack: real,
    there: Option<Info>, back: Option<Info>)
    requires forall key :: Under(lookup, key) == Filed(lines, upper, key)
    requires IsAnswer(Under(lookup, Key(p, a, b)), time, slack, there)
    requires IsAnswer(Under(lookup, Key(p, b, a)), time, slack, back)
    ensures there == back
  {
    FiledBothWays(lines, upper, p, a, b);
    AnswerIsUnique(Under(lookup, Key(p, a, b)), time, slack, there, back);
  }

  lemma OneMoreInOrder(all: seq<Line>, part: seq<Line>, upper: string -> string, key: Key, x: seq<Info>)
    requires all != [] && part != [] && all[|all| - 1] == part[|part| - 1]
    requires Filed(all[..|all| - 1], upper, key) == x + Filed(part[..|part| - 1], upper, key)
    ensures Filed(all, upper, key) == x + Filed(part, upper, key)
  {
    Regroup(x, Filed(part[..|part| - 1], upper, key), Copies(part[|part| - 1], upper, key));
  }

  lemma SplitLast<T>(before: seq<T>, after: seq<T>)
    requires after != []
    ensures before + after != [] && (before + after)[|before + after| - 1] == after[|after| - 1]
    ensures (before + after)[..|before + after| - 1] == before + after[..|after| - 1]
  {
  }

  lemma Regroup<T>(a: seq<T>, b: seq<T>, c: seq<T>)
    ensures (a + b) + c == a + (b + c)
  {
  }

  /** What a list of lines files is what its parts file, in the same order. */
  lemma {:induction false} FiledInOrder(before: seq<Line>, after: seq<Line>, upper: string -> string, key: Key)
    ensures Filed(before + after, upper, key) == Filed(before, upper, key) + Filed(after, upper, key)
  {
    if after == [] {
      assert before + after == before;
    } else {
      var init, x := after[..|after| - 1], Filed(before, upper, key);
      assert Filed(before + init, upper, key) == x + Filed(init, upper, key) by {
        FiledInOrder(before, init, upper, key);
      }
      SplitLast(before, after);
      OneMoreInOrder(before + after, after, upper, key, x);
    }
  }

  /**
   * A line that is a record with a protocol and two ends is filed once under each direction, and
   * twice under the one direction there is if both ends are the same; other lines are not filed.
   */
  lemma LineIsFiled(line: Line, upper: string -> string, key: Key)
    ensures !(line.Record? && upper(line.protocol) != "" && line.local != "" && line.remote != "") ==>
              Filed([line], upper, key) == []
    ensures line.Record? && upper(line.protocol) != "" && line.local != "" && line.remote != "" ==>
              var there := Key(upper(line.protocol), line.local, line.remote);
              var back := Key(upper(line.protocol), line.remote, line.local);
              Filed([line], upper, key) == if there == back && key == there then [line.info, line.info]
                                           else if key == there || key == back then [line.info]
                                           else []
  {
    assert [line][..0] == [];
    assert Filed([line], upper, key) == Copies(line, upper, key);
  }

  predicate Names(line: Line, upper: string -> string, key: Key, info: Info) {
    && IsFiled(line, upper) && line.info == info && upper(line.protocol) == key.protocol
    && ((line.local == key.source && line.remote == key.destination)
        || (line.remote == key.source && line.local == key.destination))
  }

  /** A connection can be matched exactly if a usable line gives it the packet's two ends. */
  lemma {:induction false} FiledExactlyWhen(lines: seq<Line>, upper: string -> string, key: Key, info: Info)
    ensures info in Filed(lines, upper, key) <==> exists line :: line in lines && Names(line, upper, key, info)
  {
    if lines != [] {
      var k := |lines| - 1;
      FiledExactlyWhen(lines[..k], upper, key, info);
      CopiesExactlyWhen(lines[k], upper, key, info);
      assert lines == lines[..k] + [lines[k]];
    }
  }

  lemma CopiesExactlyWhen(line: Line, upper: string -> string, key: Key, info: Info)
    ensures info in Copies(line, upper, key) <==> Names(line, upper, key, info)
  {
    if Names(line, upper, key, info) {
      assert Copies(line, upper, key)[0] == info;
    }
  }
}
