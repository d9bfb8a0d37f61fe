/** The map protocol on values: how sightings become obstacles, what an update
    says, and the messages between the mapper and a planner that may be started
    afresh at any time. */
module MapSpec {
  import opened Grid

  const OBS_THRES := 2

  /** How often each cell has been sighted, up to three times. */
  type Counts = map<Cell, nat>

  ghost predicate ValidCounts(counts: Counts) {
    && (forall c :: c in counts <==> InGrid(c))
    && forall c :: c in counts ==> counts[c] <= OBS_THRES + 1
  }

  ghost function Confirmed(counts: Counts): set<Cell> {
    set c | c in counts && counts[c] > OBS_THRES
  }

  /** `addObstacle`: one more sighting, unless off the map or already an obstacle. */
  function Sighted(counts: Counts, c: Cell): Counts {
    if c in counts && counts[c] <= OBS_THRES then counts[c := counts[c] + 1] else counts
  }

  /** The obstacle that a sighting adds to the message, if any. */
  function News(counts: Counts, c: Cell): seq<Cell> {
    if c in counts && counts[c] == OBS_THRES then [c] else []
  }

  function Scanned(counts: Counts, cells: seq<Cell>): Counts {
    if cells == [] then counts else Sighted(Scanned(counts, cells[..|cells| - 1]), cells[|cells| - 1])
  }

  function AllNews(counts: Counts, cells: seq<Cell>): (news: seq<Cell>)
    ensures |news| <= |cells|
  {
    if cells == [] then []
    else AllNews(counts, cells[..|cells| - 1]) + News(Scanned(counts, cells[..|cells| - 1]), cells[|cells| - 1])
  }

  /** The obstacles among the first k cells of the map, row by row. */
  function Listing(counts: Counts, k: nat): (list: seq<Cell>)
    ensures |list| <= k
  {
    if k == 0 then []
    else
      var c := Cell((k - 1) / GRID_NUM, (k - 1) % GRID_NUM);
      Listing(counts, k - 1) + if c in counts && counts[c] > OBS_THRES then [c] else []
  }

  /** The obstacles of the update that follows a scan. */
  function Message(counts: Counts, cells: seq<Cell>, resending: bool): seq<Cell> {
    AllNews(counts, cells) + if resending then Listing(Scanned(counts, cells), GRID_NUM * GRID_NUM) else []
  }

  ghost function Members(message: seq<Cell>): set<Cell> {
    set c | c in message
  }

  lemma {:induction false} ScanStaysValid(counts: Counts, cells: seq<Cell>)
    requires ValidCounts(counts)
    ensures ValidCounts(Scanned(counts, cells))
  {
    if cells != [] {
      ScanStaysValid(counts, cells[..|cells| - 1]);
    }
  }

  /** A scan confirms exactly the cells it announces, each of them new. */
  lemma {:induction false} ScanConfirms(counts: Counts, cells: seq<Cell>)
    ensures Confirmed(Scanned(counts, cells)) == Confirmed(counts) + Members(AllNews(counts, cells))
    ensures Confirmed(counts) !! Members(AllNews(counts, cells))
  {
    if cells != [] {
      var init, c := cells[..|cells| - 1], cells[|cells| - 1];
      ScanConfirms(counts, init);
      var mid := Scanned(counts, init);
      assert Confirmed(Sighted(mid, c)) == Confirmed(mid) + Members(News(mid, c));
      assert Members(AllNews(counts, cells)) == Members(AllNews(counts, init)) + Members(News(mid, c));
      assert Confirmed(mid) !! Members(News(mid, c));
    }
  }

  lemma {:induction false} ListingMembers(counts: Counts, k: nat)
    requires k <= GRID_NUM * GRID_NUM
    ensures Members(Listing(counts, k)) == set c | c in Confirmed(counts) && InGrid(c) && c.x * GRID_NUM + c.y < k
  {
    if k > 0 {
      ListingMembers(counts, k - 1);
      var c := Cell((k - 1) / GRID_NUM, (k - 1) % GRID_NUM);
      assert Members(Listing(counts, k)) ==
             Members(Listing(counts, k - 1)) + if c in Confirmed(counts) then {c} else {};
      forall e: Cell | InGrid(e) && e.x * GRID_NUM + e.y == k - 1 ensures e == c {
        Position(e, k - 1);
      }
      assert InGrid(c) && c.x * GRID_NUM + c.y == k - 1;
    }
  }

  lemma Position(e: Cell, n: nat)
    requires InGrid(e) && e.x * GRID_NUM + e.y == n
    ensures e.x == n / GRID_NUM && e.y == n % GRID_NUM
  {
  }

  /** What an update says: all confirmed cells when it is a full one, else just
      those confirmed by this scan. */
  lemma MessageMembers(counts: Counts, cells: seq<Cell>, resending: bool)
    requires ValidCounts(counts)
    ensures var after := Scanned(counts, cells);
      && Members(Message(counts, cells, resending)) ==
           (if resending then Confirmed(after) else Confirmed(after) - Confirmed(counts))
      && Confirmed(counts) <= Confirmed(after)
      && forall c :: c in Message(counts, cells, resending) ==> InGrid(c)
  {
    var after := Scanned(counts, cells);
    ScanStaysValid(counts, cells);
    ScanConfirms(counts, cells);
    if resending {
      ListingMembers(after, GRID_NUM * GRID_NUM);
      assert Members(Message(counts, cells, true)) ==
             Members(AllNews(counts, cells)) + Members(Listing(after, GRID_NUM * GRID_NUM));
      assert Members(Listing(after, GRID_NUM * GRID_NUM)) == Confirmed(after);
    } else {
      assert Message(counts, cells, false) == AllNews(counts, cells);
    }
    forall c | c in Message(counts, cells, resending) ensures InGrid(c) {
      assert c in Members(Message(counts, cells, resending));
    }
  }

  /** A scan counts each sighting of a cell, up to three in all. */
  lemma {:induction false} ScanCounts(counts: Counts, cells: seq<Cell>, c: Cell)
    requires c in counts && counts[c] <= 3
    ensures c in Scanned(counts, cells)
    ensures Scanned(counts, cells)[c] == AtMostThree(counts[c] + multiset(cells)[c])
  {
    if cells != [] {
      var init, last := cells[..|cells| - 1], cells[|cells| - 1];
      assert cells == init + [last];
      ScanCounts(counts, init, c);
    }
  }

  function AtMostThree(n: nat): nat {
    if n <= 3 then n else 3
  }

  /** A cell is confirmed by its third sighting. */
  lemma ThirdSightingConfirms(counts: Counts, cells: seq<Cell>, c: Cell)
    requires c in counts && counts[c] <= 3
    ensures c in Confirmed(Scanned(counts, cells)) <==> counts[c] + multiset(cells)[c] >= 3
  {
    ScanCounts(counts, cells, c);
  }

  /** The listing goes row by row. */
  lemma {:induction false} ListingInOrder(counts: Counts, k: nat)
    requires k <= 48 * 48
    ensures forall i, j :: 0 <= i < j < |Listing(counts, k)| ==>
      48 * Listing(counts, k)[i].x + Listing(counts, k)[i].y < 48 * Listing(counts, k)[j].x + Listing(counts, k)[j].y
    ensures forall i :: 0 <= i < |Listing(counts, k)| ==>
      48 * Listing(counts, k)[i].x + Listing(counts, k)[i].y < k
  {
    if k > 0 {
      ListingInOrder(counts, k - 1);
    }
  }

  // ----- how long an update is

  lemma OneMoreMember(list: seq<Cell>, c: Cell)
    requires c !in list
    ensures |Members(list + [c])| == |Members(list)| + 1
  {
    assert Members(list + [c]) == Members(list) + {c};
  }

  lemma {:induction false} NewsLength(counts: Counts, cells: seq<Cell>)
    ensures |AllNews(counts, cells)| == |Members(AllNews(counts, cells))|
  {
    if cells == [] {
      assert Members([]) == {};
    } else {
      hide Members, Confirmed, News, Scanned;
      var init, c := cells[..|cells| - 1], cells[|cells| - 1];
      NewsLength(counts, init);
      ScanConfirms(counts, init);
      NewsIsNew(Scanned(counts, init), AllNews(counts, init), c);
    }
  }

  lemma NewsIsNew(mid: Counts, list: seq<Cell>, c: Cell)
    requires Members(list) <= Confirmed(mid)
    ensures |Members(list + News(mid, c))| == |Members(list)| + |News(mid, c)|
  {
    if News(mid, c) == [] {
      assert list + [] == list;
    } else {
      assert c !in Confirmed(mid);
      OneMoreMember(list, c);
    }
  }

  lemma {:induction false} ListingLength(counts: Counts, k: nat)
    requires k <= GRID_NUM * GRID_NUM
    ensures |Listing(counts, k)| == |Members(Listing(counts, k))|
  {
    if k > 0 {
      ListingLength(counts, k - 1);
      ListingMembers(counts, k - 1);
      var c := Cell((k - 1) / GRID_NUM, (k - 1) % GRID_NUM);
      assert c.x * GRID_NUM + c.y == k - 1;
      assert c !in Members(Listing(counts, k - 1));
      assert Members(Listing(counts, k)) ==
             Members(Listing(counts, k - 1)) + if c in Confirmed(counts) then {c} else {};
    }
  }

  /** The update fits its arrays: told from how many cells are confirmed. */
  ghost predicate Fits(counts: Counts, cells: seq<Cell>, resending: bool) {
    |AllNews(counts, cells)| + (if resending then |Confirmed(Scanned(counts, cells))| else 0) <= MAX_OBSTACLES
  }

  /** The length of an update, which begins with the new obstacles: a full one
      names these twice. */
  lemma MessageLength(counts: Counts, cells: seq<Cell>, resending: bool)
    requires ValidCounts(counts)
    ensures var news := |AllNews(counts, cells)|;
      && |Message(counts, cells, resending)| == (if resending then |Confirmed(counts)| + 2 * news else news)
      && (Fits(counts, cells, resending) <==> |Message(counts, cells, resending)| <= 2042)
      && AllNews(counts, cells) <= Message(counts, cells, resending)
  {
    var after := Scanned(counts, cells);
    ScanStaysValid(counts, cells);
    ScanConfirms(counts, cells);
    NewsLength(counts, cells);
    ListingLength(after, GRID_NUM * GRID_NUM);
    ListingMembers(after, GRID_NUM * GRID_NUM);
    assert Members(Listing(after, GRID_NUM * GRID_NUM)) == Confirmed(after);
    assert |Confirmed(after)| == |Confirmed(counts)| + |Members(AllNews(counts, cells))|;
  }

  lemma {:induction false} FullListing(counts: Counts, k: nat)
    requires k <= GRID_NUM * GRID_NUM && forall c :: InGrid(c) ==> c in counts && counts[c] > OBS_THRES
    ensures |Listing(counts, k)| == k
  {
    if k > 0 {
      FullListing(counts, k - 1);
      assert InGrid(Cell((k - 1) / GRID_NUM, (k - 1) % GRID_NUM));
    }
  }

  /** A full update of a map full of obstacles does not fit. */
  lemma FullMapOverflows(counts: Counts)
    requires ValidCounts(counts) && forall c :: InGrid(c) ==> c in counts && counts[c] > OBS_THRES
    ensures !Fits(counts, [], true)
  {
    FullListing(counts, GRID_NUM * GRID_NUM);
    MessageLength(counts, [], true);
    assert Scanned(counts, []) == counts;
  }

  // ----- the protocol

  /** The mapper's counts and its flag, the updates under way, the planner's map
      and its flag, the acknowledgements under way (true asks for a full update),
      and all updates ever sent. */
  datatype State = State(
    counts: Counts,
    resendingAll: bool,
    updates: seq<seq<Cell>>,
    known: set<Cell>,
    requestAll: bool,
    acks: seq<bool>,
    history: set<seq<Cell>>)

  /** A restart kills the planner with updates it had not read and
      acknowledgements it had not got out, and may hand the new planner updates
      that were sent before. */
  datatype Event =
    | Scan(cells: seq<Cell>)
    | TakeUpdate
    | TakeAck
    | Restart(lostUpdates: nat, lostAcks: nat, again: seq<seq<Cell>>)

  ghost predicate Enabled(s: State, e: Event) {
    match e
    case Scan(cells) => Fits(s.counts, cells, s.resendingAll)
    case TakeUpdate => s.updates != []
    case TakeAck => s.acks != []
    case Restart(lostUpdates, lostAcks, again) =>
      lostUpdates <= |s.updates| && lostAcks <= |s.acks| && forall i :: 0 <= i < |again| ==> again[i] in s.history
  }

  ghost function Step(s: State, e: Event): State
    requires Enabled(s, e)
  {
    match e
    case Scan(cells) =>
      var message := Message(s.counts, cells, s.resendingAll);
      s.(counts := Scanned(s.counts, cells), resendingAll := false,
         updates := s.updates + [message], history := s.history + {message})
    case TakeUpdate =>
      s.(known := s.known + Members(s.updates[0]), updates := s.updates[1..],
         acks := s.acks + [s.requestAll], requestAll := false)
    case TakeAck =>
      s.(resendingAll := s.resendingAll || s.acks[0], acks := s.acks[1..])
    case Restart(lostUpdates, lostAcks, again) =>
      s.(known := {}, requestAll := true,
         updates := again + s.updates[lostUpdates..], acks := s.acks[..|s.acks| - lostAcks])
  }

  ghost function Initial(): State {
    State(map x, y | 0 <= x < GRID_NUM && 0 <= y < GRID_NUM :: Cell(x, y) := 0, false, [], {}, true, [], {})
  }

  ghost function UnderWay(updates: seq<seq<Cell>>): set<Cell> {
    if updates == [] then {} else Members(updates[0]) + UnderWay(updates[1..])
  }

  /** A full update has been asked for or is about to be. */
  ghost predicate ResendPending(s: State) {
    s.requestAll || true in s.acks || s.resendingAll
  }

  ghost predicate Inv(s: State) {
    && ValidCounts(s.counts)
    && (forall m :: m in s.history ==> Members(m) <= Confirmed(s.counts))
    && s.known + UnderWay(s.updates) <= Confirmed(s.counts)
    && (ResendPending(s) || s.known + UnderWay(s.updates) == Confirmed(s.counts))
  }

  lemma {:induction false} UnderWayAppend(updates: seq<seq<Cell>>, message: seq<Cell>)
    ensures UnderWay(updates + [message]) == UnderWay(updates) + Members(message)
  {
    if updates == [] {
      assert ([message])[1..] == [] && updates + [message] == [message];
    } else {
      UnderWayAppend(updates[1..], message);
      assert (updates + [message])[1..] == updates[1..] + [message];
    }
  }

  lemma {:induction false} UnderWayWithin(updates: seq<seq<Cell>>, all: set<Cell>)
    requires forall i :: 0 <= i < |updates| ==> Members(updates[i]) <= all
    ensures UnderWay(updates) <= all
  {
    if updates != [] {
      UnderWayWithin(updates[1..], all);
    }
  }

  lemma {:induction false} UnderWayOf(updates: seq<seq<Cell>>, i: nat)
    requires i < |updates|
    ensures Members(updates[i]) <= UnderWay(updates)
  {
    if i > 0 {
      UnderWayOf(updates[1..], i - 1);
    }
  }

  lemma ScanKeepsInv(s: State, cells: seq<Cell>)
    requires Inv(s) && Enabled(s, Scan(cells))
    ensures Inv(Step(s, Scan(cells)))
  {
    hide Message, Scanned, Confirmed, Members;
    var message := Message(s.counts, cells, s.resendingAll);
    ScanStaysValid(s.counts, cells);
    MessageMembers(s.counts, cells, s.resendingAll);
    UnderWayAppend(s.updates, message);
  }

  lemma TakeUpdateKeepsInv(s: State)
    requires Inv(s) && Enabled(s, TakeUpdate)
    ensures Inv(Step(s, TakeUpdate))
  {
    hide Confirmed, Members;
    var t := Step(s, TakeUpdate);
    assert t.acks[|s.acks|] == s.requestAll;
    assert true in s.acks ==> true in t.acks;
    assert t.known + UnderWay(t.updates) == s.known + UnderWay(s.updates);
  }

  lemma RestartKeepsInv(s: State, lostUpdates: nat, lostAcks: nat, again: seq<seq<Cell>>)
    requires Inv(s) && Enabled(s, Restart(lostUpdates, lostAcks, again))
    ensures Inv(Step(s, Restart(lostUpdates, lostAcks, again)))
  {
    hide Confirmed, Members;
    var updates := again + s.updates[lostUpdates..];
    forall i | 0 <= i < |updates| ensures Members(updates[i]) <= Confirmed(s.counts) {
      if i < |again| {
        assert again[i] in s.history;
      } else {
        UnderWayOf(s.updates, lostUpdates + i - |again|);
      }
    }
    UnderWayWithin(updates, Confirmed(s.counts));
  }

  lemma StepKeepsInv(s: State, e: Event)
    requires Inv(s) && Enabled(s, e)
    ensures Inv(Step(s, e))
  {
    match e
    case Scan(cells) => ScanKeepsInv(s, cells);
    case TakeUpdate => TakeUpdateKeepsInv(s);
    case TakeAck =>
      assert s.acks == [s.acks[0]] + s.acks[1..];
    case Restart(lostUpdates, lostAcks, again) => RestartKeepsInv(s, lostUpdates, lostAcks, again);
  }

  lemma InitialInv()
    ensures Inv(Initial())
  {
    assert Confirmed(Initial().counts) == {};
  }

  ghost predicate Run(states: seq<State>, events: seq<Event>) {
    && |states| == |events| + 1 && states[0] == Initial()
    && forall i :: 0 <= i < |events| ==> Enabled(states[i], events[i]) && states[i + 1] == Step(states[i], events[i])
  }

  /** The maps agree in every state of every run, through any number of cold
      restarts of the planner: its obstacles and those under way are confirmed by
      the mapper, and they are all that is confirmed unless a full update has been
      asked for or is about to be. */
  lemma {:induction false} MapsAgree(states: seq<State>, events: seq<Event>, i: nat)
    requires Run(states, events) && i < |states|
    ensures Inv(states[i])
  {
    hide Inv, Enabled, Step, Initial;
    if i == 0 {
      InitialInv();
    } else {
      MapsAgree(states, events, i - 1);
      StepKeepsInv(states[i - 1], events[i - 1]);
    }
  }

  // ----- recovery

  ghost function TakeAllUpdates(s: State): (t: State)
    decreases |s.updates|
  {
    if s.updates == [] then s else TakeAllUpdates(Step(s, TakeUpdate))
  }

  ghost function TakeAllAcks(s: State): (t: State)
    decreases |s.acks|
  {
    if s.acks == [] then s else TakeAllAcks(Step(s, TakeAck))
  }

  lemma {:induction false} UpdatesTaken(s: State)
    requires Inv(s)
    ensures var t := TakeAllUpdates(s);
      && Inv(t) && t.updates == [] && t.counts == s.counts && t.resendingAll == s.resendingAll
      && (s.updates != [] ==> !t.requestAll)
      && (!s.requestAll ==> !t.requestAll && (true in t.acks ==> true in s.acks))
    decreases |s.updates|
  {
    hide Inv;
    if s.updates != [] {
      TakeUpdateKeepsInv(s);
      UpdatesTaken(Step(s, TakeUpdate));
    }
  }

  lemma {:induction false} AcksTaken(s: State)
    requires Inv(s)
    ensures var t := TakeAllAcks(s);
      && Inv(t) && t.acks == [] && t.counts == s.counts && t.requestAll == s.requestAll && t.updates == s.updates
    decreases |s.acks|
  {
    hide Inv;
    if s.acks != [] {
      StepKeepsInv(s, TakeAck);
      AcksTaken(Step(s, TakeAck));
    }
  }

  /** One round trip repairs the planner's map after any restarts: a scan whose
      update is read and acknowledged, then a scan whose update is read, leave the
      planner with all confirmed cells and nothing pending. */
  lemma RoundTripRepairs(s: State, first: seq<Cell>, second: seq<Cell>)
    requires Inv(s) && Enabled(s, Scan(first))
    requires Enabled(TakeAllAcks(TakeAllUpdates(Step(s, Scan(first)))), Scan(second))
    ensures var mid := TakeAllAcks(TakeAllUpdates(Step(s, Scan(first))));
            var end := TakeAllUpdates(Step(mid, Scan(second)));
            end.known == Confirmed(end.counts) && !ResendPending(end)
  {
    hide Message, Scanned, Confirmed, Members, TakeAllAcks, TakeAllUpdates;
    var s1 := Step(s, Scan(first));
    ScanKeepsInv(s, first);
    UpdatesTaken(s1);
    AcksTaken(TakeAllUpdates(s1));
    var mid := TakeAllAcks(TakeAllUpdates(s1));
    ScanKeepsInv(mid, second);
    UpdatesTaken(Step(mid, Scan(second)));
  }
}
