/**
 * The two move families of the room-sorting puzzle and their application.
 * Each generator is specified against a declarative legality predicate
 * (LegalExit, LegalEntry): a move is generated exactly when it is legal.
 */
module BurrowMoves {
  import opened BurrowBoard

  /** A single-token move: out of a room onto a hallway tile, or from the hallway into a room. */
  datatype Move =
    | Exit(room: nat, slot: nat, hall: nat, cost: int, token: char)
    | Enter(hall: nat, room: nat, slot: nat, cost: int, token: char)

  /**
   * The room-to-hallway rule: the topmost token of room `ri` walks from the room's
   * entrance to a stop over empty tiles. A room whose every slot holds that same
   * letter (a full room, whatever its target) releases nothing.
   */
  predicate LegalExit(cfg: Config, s: State, ri: nat, m: Move)
    requires cfg.Valid() && WellFormed(cfg, s) && ri < RoomCount
  {
    var room := s.rooms[ri];
    var entrance := cfg.entrances[ri];
    && m.Exit? && m.room == ri
    && m.slot < cfg.depth && room[m.slot] != Empty
    && (forall j :: 0 <= j < m.slot ==> room[j] == Empty)
    && !(forall k :: 0 <= k < |room| ==> room[k] == room[m.slot])
    && m.token == room[m.slot]
    && m.hall in Stops && HallwayClear(s.hallway, entrance, m.hall)
    && m.cost == (m.slot + 1 + Distance(entrance, m.hall)) * cfg.energy[m.token]
  }

  /**
   * The hallway-to-room rule for the token parked at `hp`: its target room holds
   * nothing but that letter and empty slots, the hallway up to the entrance is clear,
   * and the token sinks to the deepest empty slot.
   */
  predicate LegalEntry(cfg: Config, s: State, hp: nat, m: Move)
    requires cfg.Valid() && WellFormed(cfg, s) && hp < HallwayLength && s.hallway[hp] != Empty
  {
    var token := s.hallway[hp];
    var target := cfg.targets[token];
    var room := s.rooms[target];
    var entrance := cfg.entrances[target];
    && m == Enter(hp, target, m.slot, m.cost, token)
    && (forall k :: 0 <= k < |room| ==> room[k] == token || room[k] == Empty)
    && HallwayClear(s.hallway, hp, entrance)
    && m.slot < cfg.depth && room[m.slot] == Empty
    && (forall j :: m.slot < j < cfg.depth ==> room[j] != Empty)
    && m.cost == (Distance(hp, entrance) + m.slot + 1) * cfg.energy[token]
  }

  predicate Legal(cfg: Config, s: State, m: Move)
    requires cfg.Valid() && WellFormed(cfg, s)
  {
    && Fits(s, m)
    && (|| (m.Exit? && m.room < RoomCount && LegalExit(cfg, s, m.room, m))
        || (m.Enter? && m.hall < HallwayLength && s.hallway[m.hall] != Empty && LegalEntry(cfg, s, m.hall, m)))
  }

  /** The exits of one token at slot `top` of room `ri` to each stop in `stops` whose path is clear, in order. */
  function ExitMoves(cfg: Config, hallway: seq<char>, ri: nat, top: nat, token: char, stops: seq<int>): (moves: seq<Move>)
    requires cfg.Valid() && ri < RoomCount && |hallway| == HallwayLength && token in cfg.energy
    requires forall p :: p in stops ==> 0 <= p < HallwayLength
    ensures forall m :: m in moves <==>
      && m.Exit? && m.room == ri && m.slot == top && m.token == token
      && m.hall in stops && HallwayClear(hallway, cfg.entrances[ri], m.hall)
      && m.cost == (top + 1 + Distance(cfg.entrances[ri], m.hall)) * cfg.energy[token]
  {
    if stops == [] then []
    else
      var p := stops[0];
      var entrance := cfg.entrances[ri];
      assert p in stops && 0 <= entrance < HallwayLength;
      assert forall q :: q in stops[1..] ==> q in stops;
      var here := if HallwayClear(hallway, entrance, p)
                  then [Exit(ri, top, p, (top + 1 + Distance(entrance, p)) * cfg.energy[token], token)]
                  else [];
      here + ExitMoves(cfg, hallway, ri, top, token, stops[1..])
  }

  /** The room-to-hallway moves of room `ri`. */
  function MovesFromRoom(cfg: Config, s: State, ri: nat): (moves: seq<Move>)
    requires cfg.Valid() && WellFormed(cfg, s) && ri < RoomCount
    ensures forall m :: m in moves <==> LegalExit(cfg, s, ri, m)
    ensures (forall k :: 0 <= k < |s.rooms[ri]| ==> s.rooms[ri][k] == Empty) ==> moves == []
    ensures (forall k :: 0 <= k < |s.rooms[ri]| ==> s.rooms[ri][k] == s.rooms[ri][0] != Empty) ==> moves == []
  {
    var room := s.rooms[ri];
    var top := TopOccupied(room, cfg.depth, 0);
    ExitsLeaveTop(cfg, s, ri);
    if top == -1 then []
    else
      var token := room[top];
      if (forall c :: c in room ==> c == token) && (forall j :: top <= j < cfg.depth ==> room[j] == token) then
        assert forall k :: 0 <= k < |room| ==> room[k] == token by {
          forall k | 0 <= k < |room| ensures room[k] == token { assert room[k] in room; }
        }
        []
      else
        ExitsOfTop(cfg, s, ri, top);
        ExitMoves(cfg, s.hallway, ri, top, token, Stops)
  }

  /** A legal exit leaves from the topmost occupied slot. */
  lemma ExitsLeaveTop(cfg: Config, s: State, ri: nat)
    requires cfg.Valid() && WellFormed(cfg, s) && ri < RoomCount
    ensures forall m :: LegalExit(cfg, s, ri, m) ==> m.slot == TopOccupied(s.rooms[ri], cfg.depth, 0)
  {
  }

  /** When the room is not uniform, the exits of its top token are exactly its legal exits. */
  lemma ExitsOfTop(cfg: Config, s: State, ri: nat, top: nat)
    requires cfg.Valid() && WellFormed(cfg, s) && ri < RoomCount
    requires top == TopOccupied(s.rooms[ri], cfg.depth, 0)
    requires !(forall k :: 0 <= k < |s.rooms[ri]| ==> s.rooms[ri][k] == s.rooms[ri][top])
    ensures forall m :: m in ExitMoves(cfg, s.hallway, ri, top, s.rooms[ri][top], Stops) <==> LegalExit(cfg, s, ri, m)
  {
    TopExitsLegal(cfg, s, ri, top);
    LegalExitsListed(cfg, s, ri, top);
  }

  lemma TopExitsLegal(cfg: Config, s: State, ri: nat, top: nat)
    requires cfg.Valid() && WellFormed(cfg, s) && ri < RoomCount
    requires top == TopOccupied(s.rooms[ri], cfg.depth, 0)
    requires !(forall k :: 0 <= k < |s.rooms[ri]| ==> s.rooms[ri][k] == s.rooms[ri][top])
    ensures forall m :: m in ExitMoves(cfg, s.hallway, ri, top, s.rooms[ri][top], Stops) ==> LegalExit(cfg, s, ri, m)
  {
  }

  lemma LegalExitsListed(cfg: Config, s: State, ri: nat, top: nat)
    requires cfg.Valid() && WellFormed(cfg, s) && ri < RoomCount
    requires top == TopOccupied(s.rooms[ri], cfg.depth, 0) && top >= 0
    ensures forall m :: LegalExit(cfg, s, ri, m) ==> m in ExitMoves(cfg, s.hallway, ri, top, s.rooms[ri][top], Stops)
  {
    ExitsLeaveTop(cfg, s, ri);
  }

  /** The hallway-to-room moves of the token at `hp`: at most one. */
  function MovesToRoom(cfg: Config, s: State, hp: nat): (moves: seq<Move>)
    requires cfg.Valid() && WellFormed(cfg, s) && hp < HallwayLength && s.hallway[hp] != Empty
    ensures |moves| <= 1
    ensures forall m :: m in moves <==> LegalEntry(cfg, s, hp, m)
  {
    var token := s.hallway[hp];
    var target := cfg.targets[token];
    var room := s.rooms[target];
    var entrance := cfg.entrances[target];
    var slot := DeepestEmpty(room, cfg.depth);
    EntryShape(cfg, s, hp);
    if (forall c :: c in room ==> c == token || c == Empty) && HallwayClear(s.hallway, hp, entrance) && slot != -1 then
      [Enter(hp, target, slot, (Distance(hp, entrance) + slot + 1) * cfg.energy[token], token)]
    else
      []
  }

  /** A legal entry exists exactly when the room admits the token, the path is clear and a slot is free; it is then unique. */
  lemma EntryShape(cfg: Config, s: State, hp: nat)
    requires cfg.Valid() && WellFormed(cfg, s) && hp < HallwayLength && s.hallway[hp] != Empty
    ensures var token := s.hallway[hp];
            var target := cfg.targets[token];
            var room := s.rooms[target];
            var entrance := cfg.entrances[target];
            var slot := DeepestEmpty(room, cfg.depth);
            forall m :: LegalEntry(cfg, s, hp, m) <==>
              && (forall c :: c in room ==> c == token || c == Empty)
              && HallwayClear(s.hallway, hp, entrance)
              && slot != -1
              && m == Enter(hp, target, slot, (Distance(hp, entrance) + slot + 1) * cfg.energy[token], token)
  {
    var token := s.hallway[hp];
    var target := cfg.targets[token];
    var room := s.rooms[target];
    var slot := DeepestEmpty(room, cfg.depth);
    assert (forall c :: c in room ==> c == token || c == Empty) <==>
           (forall k :: 0 <= k < |room| ==> room[k] == token || room[k] == Empty) by {
      if forall k :: 0 <= k < |room| ==> room[k] == token || room[k] == Empty {
        forall c | c in room ensures c == token || c == Empty {
          var k :| 0 <= k < |room| && room[k] == c;
        }
      }
      if forall c :: c in room ==> c == token || c == Empty {
        forall k | 0 <= k < |room| ensures room[k] == token || room[k] == Empty {
          assert room[k] in room;
        }
      }
    }
    forall m | LegalEntry(cfg, s, hp, m) ensures m.slot == slot {
    }
  }

  function ExitsFrom(cfg: Config, s: State, ri: nat): (moves: seq<Move>)
    requires cfg.Valid() && WellFormed(cfg, s) && ri <= RoomCount
    ensures forall m :: m in moves <==> m.Exit? && ri <= m.room < RoomCount && LegalExit(cfg, s, m.room, m)
    decreases RoomCount - ri
  {
    if ri == RoomCount then [] else MovesFromRoom(cfg, s, ri) + ExitsFrom(cfg, s, ri + 1)
  }

  function EntriesFrom(cfg: Config, s: State, hp: nat): (moves: seq<Move>)
    requires cfg.Valid() && WellFormed(cfg, s) && hp <= HallwayLength
    ensures forall m :: m in moves <==>
      m.Enter? && hp <= m.hall < HallwayLength && s.hallway[m.hall] != Empty && LegalEntry(cfg, s, m.hall, m)
    decreases HallwayLength - hp
  {
    if hp == HallwayLength then []
    else (if s.hallway[hp] != Empty then MovesToRoom(cfg, s, hp) else []) + EntriesFrom(cfg, s, hp + 1)
  }

  /** Every move the search expands from `s`: room exits of rooms 0..3, then entries from tiles 0..10. */
  function AllMoves(cfg: Config, s: State): (moves: seq<Move>)
    requires cfg.Valid() && WellFormed(cfg, s)
    ensures forall m :: m in moves <==> Legal(cfg, s, m)
  {
    forall m: Move | (m.Exit? && m.room < RoomCount && LegalExit(cfg, s, m.room, m))
            || (m.Enter? && m.hall < HallwayLength && s.hallway[m.hall] != Empty && LegalEntry(cfg, s, m.hall, m))
      ensures Fits(s, m)
    {
    }
    ExitsFrom(cfg, s, 0) + EntriesFrom(cfg, s, 0)
  }

  predicate Fits(s: State, m: Move) {
    m.hall < |s.hallway| && m.room < |s.rooms| && m.slot < |s.rooms[m.room]|
  }

  /**
   * The state after a move: the hallway tile and the room slot of the move
   * trade contents, the token going to the destination and '.' to the origin;
   * every other cell is as it was.
   */
  function Apply(s: State, m: Move): (r: State)
    requires Fits(s, m)
    ensures |r.hallway| == |s.hallway| && |r.rooms| == |s.rooms|
    ensures forall i :: 0 <= i < |s.rooms| ==> |r.rooms[i]| == |s.rooms[i]|
    ensures r.hallway[m.hall] == (if m.Exit? then m.token else Empty)
    ensures r.rooms[m.room][m.slot] == (if m.Exit? then Empty else m.token)
    ensures forall p :: 0 <= p < |s.hallway| && p != m.hall ==> r.hallway[p] == s.hallway[p]
    ensures forall i, k :: 0 <= i < |s.rooms| && 0 <= k < |s.rooms[i]| && (i, k) != (m.room, m.slot) ==>
              r.rooms[i][k] == s.rooms[i][k]
  {
    match m
    case Exit(ri, slot, hp, _, token) =>
      State(s.hallway[hp := token], s.rooms[ri := s.rooms[ri][slot := Empty]])
    case Enter(hp, ri, slot, _, token) =>
      State(s.hallway[hp := Empty], s.rooms[ri := s.rooms[ri][slot := token]])
  }

  function RoomCells(rooms: seq<seq<char>>): multiset<char> {
    if rooms == [] then multiset{} else multiset(rooms[0]) + RoomCells(rooms[1..])
  }

  /** Every cell of the board, empty ones included. */
  function Cells(s: State): multiset<char> {
    multiset(s.hallway) + RoomCells(s.rooms)
  }

  /** The tokens on the board. */
  function Letters(s: State): multiset<char> {
    Cells(s)[Empty := 0]
  }

  lemma SeqUpdateCells(s: seq<char>, i: nat, v: char)
    requires i < |s|
    ensures multiset(s[i := v]) + multiset{s[i]} == multiset(s) + multiset{v}
  {
    assert s == s[..i] + [s[i]] + s[i + 1..];
    assert s[i := v] == s[..i] + [v] + s[i + 1..];
  }

  lemma {:induction false} RoomCellsUpdate(rooms: seq<seq<char>>, i: nat, k: nat, v: char)
    requires i < |rooms| && k < |rooms[i]|
    ensures RoomCells(rooms[i := rooms[i][k := v]]) + multiset{rooms[i][k]} == RoomCells(rooms) + multiset{v}
  {
    var updated := rooms[i := rooms[i][k := v]];
    if i == 0 {
      assert updated[1..] == rooms[1..];
      SeqUpdateCells(rooms[0], k, v);
    } else {
      var tail := rooms[1..];
      assert tail[i - 1] == rooms[i];
      assert updated[0] == rooms[0];
      assert updated[1..] == tail[i - 1 := tail[i - 1][k := v]];
      RoomCellsUpdate(tail, i - 1, k, v);
      calc {
        RoomCells(updated) + multiset{rooms[i][k]};
        multiset(rooms[0]) + RoomCells(updated[1..]) + multiset{rooms[i][k]};
        multiset(rooms[0]) + (RoomCells(tail[i - 1 := tail[i - 1][k := v]]) + multiset{tail[i - 1][k]});
        multiset(rooms[0]) + (RoomCells(tail) + multiset{v});
        RoomCells(rooms) + multiset{v};
      }
    }
  }

  lemma LegalMoveFits(cfg: Config, s: State, m: Move)
    requires cfg.Valid() && WellFormed(cfg, s) && Legal(cfg, s, m)
    ensures Fits(s, m) && m.cost > 0
    ensures m.Exit? ==> s.hallway[m.hall] == Empty && s.rooms[m.room][m.slot] == m.token != Empty
    ensures m.Enter? ==> s.hallway[m.hall] == m.token != Empty && s.rooms[m.room][m.slot] == Empty
    ensures m.token in cfg.energy
  {
    if m.Exit? {
      var entrance := cfg.entrances[m.room];
      assert entrance != m.hall;
      assert Passes(entrance, m.hall, m.hall);
      PositiveCost(m.slot + 1 + Distance(entrance, m.hall), cfg.energy[m.token]);
    } else {
      var entrance := cfg.entrances[cfg.targets[m.token]];
      PositiveCost(Distance(m.hall, entrance) + m.slot + 1, cfg.energy[m.token]);
    }
  }

  lemma PositiveCost(steps: int, energy: int)
    requires steps > 0 && energy > 0
    ensures steps * energy > 0
  {
  }

  /**
   * A legal move trades exactly two cells, one hallway tile and one room slot
   * (a token for '.'), and leaves every other cell as it was.
   */
  lemma ApplyTradesTwoCells(cfg: Config, s: State, m: Move)
    requires cfg.Valid() && WellFormed(cfg, s) && Legal(cfg, s, m)
    ensures Fits(s, m) && m.cost > 0
    ensures m.Exit? ==> && s.hallway[m.hall] == Empty && Apply(s, m).hallway[m.hall] == m.token
                        && s.rooms[m.room][m.slot] == m.token && Apply(s, m).rooms[m.room][m.slot] == Empty
    ensures m.Enter? ==> && s.hallway[m.hall] == m.token && Apply(s, m).hallway[m.hall] == Empty
                         && s.rooms[m.room][m.slot] == Empty && Apply(s, m).rooms[m.room][m.slot] == m.token
    ensures |Apply(s, m).hallway| == HallwayLength && |Apply(s, m).rooms| == RoomCount
    ensures forall p :: 0 <= p < HallwayLength && p != m.hall ==> Apply(s, m).hallway[p] == s.hallway[p]
    ensures forall i :: 0 <= i < RoomCount ==> |Apply(s, m).rooms[i]| == cfg.depth
    ensures forall i, k :: 0 <= i < RoomCount && 0 <= k < cfg.depth && (i, k) != (m.room, m.slot) ==>
      Apply(s, m).rooms[i][k] == s.rooms[i][k]
  {
    LegalMoveFits(cfg, s, m);
  }

  /** A legal move keeps the board well formed. */
  lemma ApplyKeepsShape(cfg: Config, s: State, m: Move)
    requires cfg.Valid() && WellFormed(cfg, s) && Legal(cfg, s, m)
    ensures Fits(s, m)
    ensures WellFormed(cfg, Apply(s, m))
  {
    ApplyTradesTwoCells(cfg, s, m);
    var t := Apply(s, m);
    forall p | 0 <= p < |t.hallway| ensures IsCell(cfg, t.hallway[p]) {
      if p != m.hall { assert t.hallway[p] == s.hallway[p]; }
    }
    forall i, k | 0 <= i < |t.rooms| && 0 <= k < |t.rooms[i]| ensures IsCell(cfg, t.rooms[i][k]) {
      if (i, k) != (m.room, m.slot) { assert t.rooms[i][k] == s.rooms[i][k]; }
    }
  }

  /** Trading a token for '.' between a hallway tile and a room slot leaves the board's cells as they were. */
  lemma {:induction false} TradeConserves(s: State, m: Move)
    requires Fits(s, m)
    requires m.Exit? ==> s.hallway[m.hall] == Empty && s.rooms[m.room][m.slot] == m.token
    requires m.Enter? ==> s.hallway[m.hall] == m.token && s.rooms[m.room][m.slot] == Empty
    ensures Cells(Apply(s, m)) == Cells(s)
  {
    var h, rooms := s.hallway, s.rooms;
    var put, took := if m.Exit? then m.token else Empty, if m.Exit? then Empty else m.token;
    var h', rooms' := h[m.hall := put], rooms[m.room := rooms[m.room][m.slot := took]];
    assert Apply(s, m) == State(h', rooms');
    RoomCellsUpdate(rooms, m.room, m.slot, took);
    SeqUpdateCells(h, m.hall, put);
    CancelTrade(multiset(h), RoomCells(rooms), multiset(h'), RoomCells(rooms'), put, took);
  }

  lemma CancelTrade(a: multiset<char>, b: multiset<char>, a': multiset<char>, b': multiset<char>, x: char, y: char)
    requires a' + multiset{y} == a + multiset{x}
    requires b' + multiset{x} == b + multiset{y}
    ensures a' + b' == a + b
  {
    forall c ensures (a' + b')[c] == (a + b)[c] {
      assert (a' + multiset{y})[c] == (a + multiset{x})[c];
      assert (b' + multiset{x})[c] == (b + multiset{y})[c];
    }
  }

  /** A legal move conserves the board's cells, hence its tokens. */
  lemma ApplyConserves(cfg: Config, s: State, m: Move)
    requires cfg.Valid() && WellFormed(cfg, s) && Legal(cfg, s, m)
    ensures Fits(s, m)
    ensures Cells(Apply(s, m)) == Cells(s)
    ensures Letters(Apply(s, m)) == Letters(s)
  {
    LegalMoveFits(cfg, s, m);
    TradeConserves(s, m);
  }
}
