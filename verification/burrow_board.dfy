/**
 * The board of the room-sorting puzzle: an 11-tile hallway above four rooms
 * of equal depth. A cell holds either '.' (empty) or a token letter.
 * The run configuration (room depth, entrance columns, per-letter step cost
 * and target room) is an explicit value instead of ambient global state.
 */
module BurrowBoard {

  const Empty: char := '.'
  const HallwayLength: nat := 11
  const RoomCount: nat := 4

  /** The hallway tiles a token may stop on, in the order moves are generated. */
  const Stops: seq<int> := [0, 1, 3, 5, 7, 9, 10]

  datatype Config = Config(depth: nat, entrances: seq<int>, energy: map<char, nat>, targets: map<char, nat>)
  {
    /** Every letter has a positive step cost and a target room; entrances are transit-only tiles. */
    predicate Valid() {
      && |entrances| == RoomCount
      && (forall i :: 0 <= i < |entrances| ==> 0 <= entrances[i] < HallwayLength && entrances[i] !in Stops)
      && Empty !in energy
      && energy.Keys == targets.Keys
      && (forall c :: c in energy ==> energy[c] > 0 && targets[c] < RoomCount)
    }
  }

  /** The constants of the puzzle: entrances at 2, 4, 6, 8 and costs A=1, B=10, C=100, D=1000. */
  function Standard(depth: nat): (cfg: Config)
    ensures cfg.Valid() && cfg.depth == depth
    ensures cfg.entrances == [2, 4, 6, 8]
    ensures forall c :: c in cfg.energy <==> c in "ABCD"
  {
    Config(depth, [2, 4, 6, 8],
           map['A' := 1, 'B' := 10, 'C' := 100, 'D' := 1000],
           map['A' := 0, 'B' := 1, 'C' := 2, 'D' := 3])
  }

  datatype State = State(hallway: seq<char>, rooms: seq<seq<char>>)

  predicate IsCell(cfg: Config, c: char) {
    c == Empty || c in cfg.energy
  }

  /** The shape every state of one run has; the search keys its maps on such states. */
  predicate WellFormed(cfg: Config, s: State) {
    && |s.hallway| == HallwayLength
    && |s.rooms| == RoomCount
    && (forall i :: 0 <= i < |s.rooms| ==> |s.rooms[i]| == cfg.depth)
    && (forall p :: 0 <= p < |s.hallway| ==> IsCell(cfg, s.hallway[p]))
    && (forall i, k :: 0 <= i < |s.rooms| && 0 <= k < |s.rooms[i]| ==> IsCell(cfg, s.rooms[i][k]))
  }

  function EmptyHallway(): (h: seq<char>)
    ensures |h| == HallwayLength && forall p :: 0 <= p < |h| ==> h[p] == Empty
  {
    seq(HallwayLength, _ => Empty)
  }

  /** The finished board: room i filled with the i-th letter of "ABCD", hallway empty. */
  function Goal(depth: nat): (g: State)
    ensures |g.hallway| == HallwayLength && forall p :: 0 <= p < |g.hallway| ==> g.hallway[p] == Empty
    ensures |g.rooms| == RoomCount
    ensures forall i, k :: 0 <= i < |g.rooms| && 0 <= k < |g.rooms[i]| ==> g.rooms[i][k] == "ABCD"[i]
    ensures forall i :: 0 <= i < |g.rooms| ==> |g.rooms[i]| == depth
  {
    State(EmptyHallway(), seq(RoomCount, i requires 0 <= i < RoomCount => seq(depth, _ => "ABCD"[i])))
  }

  /** Depth is chosen from the number of input lines: five lines mean the shallow board. */
  function DepthOf(lines: seq<string>): (d: nat)
    ensures d == 2 || d == 4
    ensures d == 2 <==> |lines| == 5
  {
    if |lines| == 5 then 2 else 4
  }

  /**
   * Reads room slots from the diagram: slot k of room i is column 3 + 2i of line 2 + k.
   * Two room rows are read when the depth is 2, four otherwise.
   */
  function ParseRooms(lines: seq<string>, depth: nat): (rooms: seq<seq<char>>)
    requires |lines| >= 2 + (if depth == 2 then 2 else 4)
    requires forall k :: 2 <= k < 2 + (if depth == 2 then 2 else 4) ==> |lines[k]| > 9
    ensures |rooms| == RoomCount
    ensures forall i :: 0 <= i < RoomCount ==> |rooms[i]| == (if depth == 2 then 2 else 4)
    ensures forall i, k :: 0 <= i < RoomCount && 0 <= k < |rooms[i]| ==> rooms[i][k] == lines[2 + k][3 + 2 * i]
  {
    var rows := if depth == 2 then 2 else 4;
    seq(RoomCount, i requires 0 <= i < RoomCount => seq(rows, k requires 0 <= k < rows => lines[2 + k][3 + 2 * i]))
  }

  /**
   * The topmost occupied slot at index `from` or deeper (up to the depth), or -1
   * when all of them are empty.
   */
  function TopOccupied(room: seq<char>, depth: nat, from: nat): (t: int)
    requires depth <= |room| && from <= depth
    ensures -1 <= t < depth
    ensures t >= 0 ==> from <= t && room[t] != Empty
    ensures forall j :: from <= j < (if t < 0 then depth else t) ==> room[j] == Empty
    decreases depth - from
  {
    if from == depth then -1
    else if room[from] != Empty then from
    else TopOccupied(room, depth, from + 1)
  }

  /**
   * The deepest empty slot below index `n`, scanning from the bottom up, or -1 when
   * every slot below `n` is occupied.
   */
  function DeepestEmpty(room: seq<char>, n: nat): (r: int)
    requires n <= |room|
    ensures -1 <= r < n
    ensures r >= 0 ==> room[r] == Empty
    ensures forall j :: r < j < n ==> room[j] != Empty
  {
    if n == 0 then -1
    else if room[n - 1] == Empty then n - 1
    else DeepestEmpty(room, n - 1)
  }

  /** The hallway tiles a walk from `start` to `end` passes over: `start` excluded, `end` included. */
  predicate Passes(start: int, end: int, p: int) {
    (start < p <= end) || (end <= p < start)
  }

  function Distance(a: int, b: int): nat {
    if a <= b then b - a else a - b
  }

  /** Whether every tile passed from `start` to `end` is empty, checked step by step from `start`. */
  function HallwayClear(hallway: seq<char>, start: int, end: int): (clear: bool)
    requires 0 <= start < |hallway| && 0 <= end < |hallway|
    ensures clear <==> forall p :: Passes(start, end, p) ==> hallway[p] == Empty
    decreases Distance(start, end)
  {
    if start == end then true
    else
      var next := if start < end then start + 1 else start - 1;
      hallway[next] == Empty && HallwayClear(hallway, next, end)
  }
}
