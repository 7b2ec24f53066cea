/** The client's own state machine: the input half of `render`
    (main.js:406-469), the replanning and crack clearing of `tick`
    (main.js:388-400), the canvas click and hunt button handlers
    (main.js:619-670) and the server messages that touch the same globals
    (main.js:737-778). Outgoing commands are appended to `commands` as
    `queueCommands` appends them to `cmdQueue`. */
module Executor {
  import opened Maybe
  import opened Tiles
  import opened Grid
  import opened ChunkSpec
  import opened ChunkStore
  import opened Pathfinder

  datatype Mode = ManualMode | HuntMode

  /** The commands the decision step queues (main.js:439-465). */
  datatype Command =
    | Walk(direction: int)
    | PlaceTile(direction: int, tile: Option<int>)
    | RemoveTile(direction: int)
    | CollectTile(direction: int)

  /** What one frame reads besides the globals: the clock, the held keys,
      the "break walls" checkbox and the selected inventory item. */
  datatype Input = Input(now: int, keys: set<string>, breakWalls: bool, selectedItem: Option<int>)

  /** The globals the decision step reads and writes. */
  datatype ExecState = ExecState(
    mode: Mode,
    walkPath: seq<int>,
    pos: Pos,
    crack: Option<Pos>,
    entities: seq<Entity>,
    lastInput: int,
    commands: seq<Command>)

  /** Path codes: 0..3 walk (or break) towards a direction, 4..7 place a
      tile towards direction code - 4. */
  predicate StepCodes(path: seq<int>) {
    forall k | 0 <= k < |path| :: 0 <= path[k] < 8
  }

  /** `Date.now() - lastInput > 1000 / 16` on whole milliseconds. */
  predicate InputReady(now: int, lastInput: int) {
    (now - lastInput) * 16 > 1000
  }

  /** The held key that wins (main.js:409-418): W, then D, then S, then A. */
  function KeyDirection(keys: set<string>): (d: Option<int>)
    ensures d.Some? ==> 0 <= d.value < 4
    ensures d.None? <==> "KeyW" !in keys && "KeyD" !in keys && "KeyS" !in keys && "KeyA" !in keys
  {
    if "KeyW" in keys then Some(0)
    else if "KeyD" in keys then Some(1)
    else if "KeyS" in keys then Some(2)
    else if "KeyA" in keys then Some(3)
    else None
  }

  /** The code a path step is stored as, and back (main.js:423-427, 653). */
  function EncodeStep(direction: int, place: bool): int {
    if place then direction + 4 else direction
  }

  datatype Step = Step(direction: int, place: bool)

  function DecodeStep(code: int): Step {
    if code >= 4 then Step(code - 4, true) else Step(code, false)
  }

  lemma DecodeEncode(direction: int, place: bool)
    requires 0 <= direction < 4
    ensures DecodeStep(EncodeStep(direction, place)) == Step(direction, place)
  {
  }

  lemma EncodeDecode(code: int)
    requires 0 <= code < 8
    ensures 0 <= DecodeStep(code).direction < 4
    ensures EncodeStep(DecodeStep(code).direction, DecodeStep(code).place) == code
  {
  }

  /** The step chosen by main.js:409-432: a held key drops the path and
      switches to manual mode; otherwise the last path code is popped. */
  datatype Choice = Choice(step: Step, fromPath: bool, walkPath: seq<int>, mode: Mode)

  function Choose(s: ExecState, keys: set<string>): (c: Option<Choice>)
    requires StepCodes(s.walkPath)
    ensures c.Some? ==> 0 <= c.value.step.direction < 4
  {
    var key := KeyDirection(keys);
    if key.Some? then Some(Choice(Step(key.value, false), false, [], ManualMode))
    else if |s.walkPath| == 0 then None
    else
      var code := s.walkPath[|s.walkPath| - 1];
      Some(Choice(DecodeStep(code), true, s.walkPath[..|s.walkPath| - 1], s.mode))
  }

  /** The action taken on the chosen step (main.js:434-467). */
  function Act(v: Chunks, s: ExecState, c: Choice, inp: Input): ExecState
    requires WellFormed(v) && 0 <= c.step.direction < 4
  {
    var direction := c.step.direction;
    var target := Move(s.pos, direction);
    var tile := ReadTile(v, target.x, target.y);
    var s1 := s.(walkPath := c.walkPath, mode := c.mode);
    if c.step.place then
      s1.(commands := s.commands + [PlaceTile(direction, inp.selectedItem)])
    else if (inp.breakWalls || c.fromPath) && IsBlock(tile) then
      s1.(walkPath := if c.fromPath then c.walkPath + [direction] else c.walkPath,
          commands := s.commands + [RemoveTile(direction)],
          crack := Some(target),
          entities := s.entities + [Other(CrackClass, target)],
          lastInput := inp.now)
    else if inp.breakWalls && IsSymbol(tile) then
      s1.(commands := s.commands + [CollectTile(direction)], lastInput := inp.now)
    else if Walkable(tile) then
      s1.(commands := s.commands + [Walk(direction)], pos := target, lastInput := inp.now)
    else s1
  }

  /** One frame of input handling over the tile map v. */
  function DecideStep(v: Chunks, s: ExecState, inp: Input): ExecState
    requires WellFormed(v) && StepCodes(s.walkPath)
  {
    if !InputReady(inp.now, s.lastInput) || s.crack.Some? then s
    else
      var c := Choose(s, inp.keys);
      if c.None? then s else Act(v, s, c.value, inp)
  }

  /** Nothing happens while the input gate is closed or a crack is pending
      (main.js:408). */
  lemma GateHoldsInput(v: Chunks, s: ExecState, inp: Input)
    requires WellFormed(v) && StepCodes(s.walkPath)
    requires !InputReady(inp.now, s.lastInput) || s.crack.Some?
    ensures DecideStep(v, s, inp) == s
  {
  }

  /** A held direction key empties the path and switches to manual mode
      (main.js:429-432), whatever the action. */
  lemma ManualOverride(v: Chunks, s: ExecState, inp: Input)
    requires WellFormed(v) && StepCodes(s.walkPath)
    requires InputReady(inp.now, s.lastInput) && s.crack.None? && KeyDirection(inp.keys).Some?
    ensures DecideStep(v, s, inp).walkPath == []
    ensures DecideStep(v, s, inp).mode == ManualMode
  {
  }

  /** A popped code c >= 4 places a tile towards direction c - 4 and does
      not move the player or restart the input gate (main.js:423-427,
      main.js:439-440). */
  lemma PlaceFromPath(v: Chunks, s: ExecState, inp: Input)
    requires WellFormed(v) && StepCodes(s.walkPath)
    requires InputReady(inp.now, s.lastInput) && s.crack.None? && KeyDirection(inp.keys).None?
    requires |s.walkPath| > 0 && s.walkPath[|s.walkPath| - 1] >= 4
    ensures var s' := DecideStep(v, s, inp);
            && s'.commands == s.commands + [PlaceTile(s.walkPath[|s.walkPath| - 1] - 4, inp.selectedItem)]
            && s'.walkPath == s.walkPath[..|s.walkPath| - 1]
            && s'.pos == s.pos && s'.lastInput == s.lastInput && s'.crack == s.crack
  {
  }

  /** A walk moves the player by exactly one `directions` vector, onto a
      walkable cell, and queues that walk (main.js:463-466). */
  lemma WalkIsOneStep(v: Chunks, s: ExecState, inp: Input)
    requires WellFormed(v) && StepCodes(s.walkPath)
    requires DecideStep(v, s, inp).pos != s.pos
    ensures exists d | 0 <= d < 4 ::
              && DecideStep(v, s, inp).pos == Move(s.pos, d)
              && DecideStep(v, s, inp).commands == s.commands + [Walk(d)]
    ensures var p := DecideStep(v, s, inp).pos; Walkable(ReadTile(v, p.x, p.y))
  {
    var c := Choose(s, inp.keys).value;
    assert DecideStep(v, s, inp).pos == Move(s.pos, c.step.direction);
  }

  /** A path step into a block breaks it instead: the same code is pushed
      back to retry, a crack appears on the block and joins the entities,
      and the removal is queued (main.js:444-454). */
  lemma PathBreakRetries(v: Chunks, s: ExecState, inp: Input)
    requires WellFormed(v) && StepCodes(s.walkPath)
    requires InputReady(inp.now, s.lastInput) && s.crack.None? && KeyDirection(inp.keys).None?
    requires |s.walkPath| > 0 && s.walkPath[|s.walkPath| - 1] < 4
    requires var t := Move(s.pos, s.walkPath[|s.walkPath| - 1]); IsBlock(ReadTile(v, t.x, t.y))
    ensures var s' := DecideStep(v, s, inp);
            var d := s.walkPath[|s.walkPath| - 1];
            && s'.walkPath == s.walkPath
            && s'.crack == Some(Move(s.pos, d))
            && s'.entities == s.entities + [Other(CrackClass, Move(s.pos, d))]
            && s'.commands == s.commands + [RemoveTile(d)]
            && s'.pos == s.pos && s'.lastInput == inp.now
  {
    var n := |s.walkPath|;
    assert s.walkPath[..n - 1] + [s.walkPath[n - 1]] == s.walkPath;
  }

  /** A path step towards a cell that is neither a block nor walkable (an
      oven, a hospital or a cell not loaded yet) is consumed without moving and without a command: the rest
      of the path then starts from a cell it was not planned from
      (main.js:434-467). */
  lemma StuckStepDropped(v: Chunks, s: ExecState, inp: Input)
    requires WellFormed(v) && StepCodes(s.walkPath)
    requires InputReady(inp.now, s.lastInput) && s.crack.None? && KeyDirection(inp.keys).None?
    requires |s.walkPath| > 0 && s.walkPath[|s.walkPath| - 1] < 4
    requires var t := Move(s.pos, s.walkPath[|s.walkPath| - 1]);
             var tile := ReadTile(v, t.x, t.y);
             !IsBlock(tile) && !Walkable(tile)
    ensures DecideStep(v, s, inp) == s.(walkPath := s.walkPath[..|s.walkPath| - 1])
  {
  }

  /** Each frame queues at most one command and never drops one. */
  lemma CommandsAppendOnly(v: Chunks, s: ExecState, inp: Input)
    requires WellFormed(v) && StepCodes(s.walkPath)
    ensures var s' := DecideStep(v, s, inp);
            s'.commands == s.commands || (|s'.commands| == |s.commands| + 1 && s'.commands[..|s.commands|] == s.commands)
  {
  }

  /** The step keeps the path codes in 0..7. */
  lemma DecideKeepsCodes(v: Chunks, s: ExecState, inp: Input)
    requires WellFormed(v) && StepCodes(s.walkPath)
    ensures StepCodes(DecideStep(v, s, inp).walkPath)
  {
  }

  /** Following a walking path does not change where it leads: after a walk
      or a break from the path, replaying the remaining path from the new
      position ends where the whole path did from the old one. */
  lemma {:induction false} FollowPathKeepsDestination(v: Chunks, s: ExecState, inp: Input)
    requires WellFormed(v) && ValidCodes(s.walkPath)
    requires KeyDirection(inp.keys).None?
    requires var s' := DecideStep(v, s, inp); s'.pos != s.pos || s'.crack != s.crack
    ensures ValidCodes(DecideStep(v, s, inp).walkPath)
    ensures var s' := DecideStep(v, s, inp); Replay(s'.pos, s'.walkPath) == Replay(s.pos, s.walkPath)
  {
    var n := |s.walkPath|;
    var d := s.walkPath[n - 1];
    var rest := s.walkPath[..n - 1];
    var s' := DecideStep(v, s, inp);
    if s'.pos != s.pos {
      assert s'.walkPath == rest && s'.pos == Move(s.pos, d);
      ReplayFirst(s.pos, s.walkPath);
    } else {
      assert rest + [d] == s.walkPath;
    }
  }

  /** Replaying a path is replaying its last code first. */
  lemma {:induction false} ReplayFirst(start: Pos, path: seq<int>)
    requires ValidCodes(path) && |path| > 0
    ensures Replay(start, path) == Replay(Move(start, path[|path| - 1]), path[..|path| - 1])
  {
    if |path| > 1 {
      ReplayFirst(start, path[1..]);
      assert path[1..][..|path| - 2] == path[..|path| - 1][1..];
      assert path[1..][|path| - 2] == path[|path| - 1];
    }
  }

  /** The client: its globals, and the tile store it reads. */
  class Client {
    const store: Store
    var mode: Mode
    var walkPath: seq<int>
    var pos: Pos
    var crack: Option<Pos>
    var entities: seq<Entity>
    var lastInput: int
    var commands: seq<Command>

    ghost predicate Valid()
      reads this, store, store.Repr
    {
      store.Valid() && this !in store.Repr && StepCodes(walkPath)
    }

    ghost function State(): ExecState
      reads this
    {
      ExecState(mode, walkPath, pos, crack, entities, lastInput, commands)
    }

    /** The initial globals (main.js:59-74, main.js:403, main.js:560). */
    constructor ()
      ensures Valid() && fresh(store) && fresh(store.Repr)
      ensures State() == ExecState(ManualMode, [], Pos(0, 0), None, [LocalPlayer], 0, [])
      ensures store.View() == map[]
    {
      store := new Store();
      mode := ManualMode;
      walkPath := [];
      pos := Pos(0, 0);
      crack := None;
      entities := [LocalPlayer];
      lastInput := 0;
      commands := [];
    }

    /** The input half of `render` (main.js:406-469). */
    method Decide(inp: Input)
      requires Valid()
      modifies this
      ensures Valid()
      ensures State() == DecideStep(store.View(), old(State()), inp)
    {
      if !InputReady(inp.now, lastInput) || crack.Some? {
        return;
      }
      var c := PickStep(inp.keys);
      if c.Some? {
        Perform(c.value, inp);
      }
    }

    /** The choice of a direction (main.js:409-432): a held key, or else
        the popped last path code, decoded. */
    method PickStep(keys: set<string>) returns (c: Option<Choice>)
      requires Valid()
      modifies this
      ensures Valid() && c == Choose(old(State()), keys)
      ensures State() == if c.None? then old(State())
                         else old(State()).(walkPath := c.value.walkPath, mode := c.value.mode)
    {
      var direction: Option<int> := None;
      if "KeyW" in keys {
        direction := Some(0);
      } else if "KeyD" in keys {
        direction := Some(1);
      } else if "KeyS" in keys {
        direction := Some(2);
      } else if "KeyA" in keys {
        direction := Some(3);
      }
      var place := false;
      var fromPath := false;
      if direction.None? && |walkPath| > 0 {
        var code := walkPath[|walkPath| - 1];
        walkPath := walkPath[..|walkPath| - 1];
        direction := Some(code);
        if code >= 4 {
          direction := Some(code - 4);
          place := true;
        }
        fromPath := true;
      } else if direction.Some? {
        walkPath := [];
        mode := ManualMode;
      }
      if direction.None? {
        return None;
      }
      c := Some(Choice(Step(direction.value, place), fromPath, walkPath, mode));
    }

    /** The action on the chosen step (main.js:434-467). */
    method Perform(c: Choice, inp: Input)
      requires Valid() && 0 <= c.step.direction < 4 && StepCodes(c.walkPath)
      requires c.walkPath == walkPath && c.mode == mode
      modifies this
      ensures Valid()
      ensures State() == Act(store.View(), old(State()), c, inp)
    {
      var d := c.step.direction;
      var newPos := Move(pos, d);
      var tile := store.GetTile(newPos.x, newPos.y);
      if c.step.place {
        commands := commands + [PlaceTile(d, inp.selectedItem)];
      } else if (inp.breakWalls || c.fromPath) && IsBlock(tile) {
        if c.fromPath {
          walkPath := walkPath + [d];
        }
        commands := commands + [RemoveTile(d)];
        crack := Some(newPos);
        entities := entities + [Other(CrackClass, newPos)];
        lastInput := inp.now;
      } else if inp.breakWalls && IsSymbol(tile) {
        commands := commands + [CollectTile(d)];
        lastInput := inp.now;
      } else if Walkable(tile) {
        commands := commands + [Walk(d)];
        pos := newPos;
        lastInput := inp.now;
      }
    }

    /** The end of `tick` (main.js:388-400): replan in hunt mode, then
        clear the crack. `search` is the hunt search's result, None in
        manual mode. */
    method Tick(fuel: nat) returns (search: Option<SearchResult>)
      requires Valid()
      modifies this
      ensures Valid() && store.View() == old(store.View())
      ensures State() == old(State()).(walkPath := walkPath, crack := crack)
      ensures search.Some? <==> old(mode) == HuntMode
      ensures old(mode) == ManualMode ==> walkPath == old(walkPath)
      ensures search.Some? && search.value.Found? ==>
                && walkPath == search.value.path
                && Leads(store.View(), entities, false, pos, Hunt, walkPath)
      ensures search.Some? && search.value.Unreachable? ==> walkPath == []
      ensures search.Some? && search.value.OutOfFuel? ==> walkPath == old(walkPath)
      ensures old(mode) == HuntMode ==>
                || walkPath == old(walkPath)
                || walkPath == []
                || (&& ValidCodes(walkPath)
                    && var end := Replay(pos, walkPath);
                       Satisfies(Hunt, ReadTile(store.View(), end.x, end.y), end))
      ensures crack == if old(crack).Some? && ReadTile(store.View(), old(crack).value.x, old(crack).value.y) == EmptyTile
                       then None else old(crack)
    {
      search := None;
      if mode == HuntMode {
        var r := Replan(fuel);
        search := Some(r);
      }
      ClearCrack();
    }

    /** Hunt mode's replanning (main.js:388-393): search from the player
        for a cell meeting the hunt goal (unexplored, or a resource), with
        the player's own cell as heuristic target and unwalkable cells
        allowed at weight 4.
        A path found replaces the old one, an unreachable goal empties it
        (the source stores `false`, which reads as an empty path), and a
        search out of fuel leaves it. */
    method Replan(fuel: nat) returns (r: SearchResult)
      requires Valid()
      modifies this
      ensures Valid() && State() == old(State()).(walkPath := walkPath)
      ensures r.Found? ==> walkPath == r.path && Leads(store.View(), entities, false, pos, Hunt, r.path)
      ensures r.Unreachable? ==> walkPath == []
      ensures r.OutOfFuel? ==> walkPath == old(walkPath)
      ensures || walkPath == old(walkPath)
              || walkPath == []
              || (&& ValidCodes(walkPath)
                  && var end := Replay(pos, walkPath);
                     Satisfies(Hunt, ReadTile(store.View(), end.x, end.y), end))
    {
      r := PathFind(store, entities, pos, pos, Hunt, false, fuel);
      if r.Found? {
        StepCodesOf(r.path);
        walkPath := r.path;
      } else if r.Unreachable? {
        walkPath := [];
      }
    }

    /** main.js:398-400: the crack is forgotten once its cell reads empty;
        its entity stays in `entities`. */
    method ClearCrack()
      requires Valid()
      modifies this
      ensures Valid() && State() == old(State()).(crack := crack)
      ensures crack == if old(crack).Some? && ReadTile(store.View(), old(crack).value.x, old(crack).value.y) == EmptyTile
                       then None else old(crack)
    {
      if crack.Some? && store.GetTile(crack.value.x, crack.value.y) == EmptyTile {
        crack := None;
      }
    }

    /** The hunt button (main.js:619-621). */
    method StartHunt()
      requires Valid()
      modifies this
      ensures Valid() && State() == old(State()).(mode := HuntMode)
    {
      mode := HuntMode;
    }

    /** A click on the map (main.js:623-670), on the tile the click maps
        to: with an item selected, walk next to it and place the item;
        otherwise walk onto it. `r` is the search's result. */
    method Click(target: Pos, selectedItem: Option<int>, fuel: nat) returns (r: SearchResult)
      requires Valid()
      modifies this
      ensures Valid() && State() == old(State()).(walkPath := walkPath)
      ensures selectedItem.Some? && r.Found? ==>
                && Leads(store.View(), entities, true, pos, AdjacentTo(target), r.path)
                && walkPath == [DirectionTo(Replay(pos, r.path), target) + 4] + r.path
      ensures selectedItem.Some? && !r.Found? ==> walkPath == old(walkPath)
      ensures selectedItem.None? && r.Found? ==>
                walkPath == r.path && Leads(store.View(), entities, false, pos, Exact(target), r.path)
      ensures selectedItem.None? && r.Unreachable? ==> walkPath == []
      ensures selectedItem.None? && r.OutOfFuel? ==> walkPath == old(walkPath)
      ensures selectedItem.Some? ==>
                || walkPath == old(walkPath)
                || PlaceRoute(store.View(), pos, target, walkPath)
      ensures selectedItem.None? ==>
                || walkPath == old(walkPath)
                || walkPath == []
                || (ValidCodes(walkPath) && Replay(pos, walkPath) == target)
    {
      if selectedItem.Some? {
        r := ClickPlace(target, fuel);
      } else {
        r := ClickWalk(target, fuel);
      }
    }

    /** The selected-item branch (main.js:638-658): search, without
        griefing, for a cell next to the target, recording the direction
        from it to the target, and put the placing step in front of the
        path. An unreachable target leaves the path as it was (the source
        fails on `false.unshift`); so does a search out of fuel. */
    method ClickPlace(target: Pos, fuel: nat) returns (r: SearchResult)
      requires Valid()
      modifies this
      ensures Valid() && State() == old(State()).(walkPath := walkPath)
      ensures r.Found? ==>
                && Leads(store.View(), entities, true, pos, AdjacentTo(target), r.path)
                && walkPath == [DirectionTo(Replay(pos, r.path), target) + 4] + r.path
      ensures !r.Found? ==> walkPath == old(walkPath)
      ensures || walkPath == old(walkPath)
              || PlaceRoute(store.View(), pos, target, walkPath)
    {
      ghost var v := store.View();
      r := PathFind(store, entities, pos, target, AdjacentTo(target), true, fuel);
      if r.Found? {
        var direction := DirectionTo(Replay(pos, r.path), target);
        PlacePath(v, pos, target, r.path);
        walkPath := [direction + 4] + r.path;
      }
    }

    /** The branch without a selected item (main.js:659-669): search for the
        target cell itself, griefing allowed; unreachable gives an empty
        path (the source stores `false`), a search out of fuel leaves the
        path as it was. */
    method ClickWalk(target: Pos, fuel: nat) returns (r: SearchResult)
      requires Valid()
      modifies this
      ensures Valid() && State() == old(State()).(walkPath := walkPath)
      ensures r.Found? ==> walkPath == r.path && Leads(store.View(), entities, false, pos, Exact(target), r.path)
      ensures r.Unreachable? ==> walkPath == []
      ensures r.OutOfFuel? ==> walkPath == old(walkPath)
      ensures || walkPath == old(walkPath)
              || walkPath == []
              || (ValidCodes(walkPath) && Replay(pos, walkPath) == target)
    {
      r := PathFind(store, entities, pos, target, Exact(target), false, fuel);
      if r.Found? {
        StepCodesOf(r.path);
        walkPath := r.path;
      } else if r.Unreachable? {
        walkPath := [];
      }
    }

    /** The `setLocalPlayerPos` message (main.js:737-741). */
    method SetLocalPlayerPos(p: Pos, now: int)
      requires Valid()
      modifies this
      ensures Valid() && State() == old(State()).(pos := p, lastInput := now)
    {
      pos := p;
      lastInput := now;
    }

    /** The `removeAllEntities` message (main.js:743-746): only the local
        player and a pending crack remain. */
    method RemoveAllEntities()
      requires Valid()
      modifies this
      ensures Valid()
      ensures State() == old(State()).(entities := entities)
      ensures entities == [LocalPlayer] + (if crack.Some? then [Other(CrackClass, crack.value)] else [])
    {
      entities := [LocalPlayer];
      if crack.Some? {
        entities := entities + [Other(CrackClass, crack.value)];
      }
    }

    /** The `addEntity` message (main.js:776-778). */
    method AddEntity(e: Entity)
      requires Valid()
      modifies this
      ensures Valid() && State() == old(State()).(entities := old(entities) + [e])
    {
      entities := entities + [e];
    }

    /** The `setTiles` message (main.js:750-756). */
    method SetTiles(p: Pos, size: nat, tiles: seq<int>)
      requires Valid() && |tiles| >= size * size
      modifies store.Repr
      ensures Valid() && State() == old(State())
      ensures store.View() == WriteRows(old(store.View()), p.x, p.y, size, tiles, size)
    {
      store.SetTiles(p.x, p.y, size, tiles);
    }
  }

  /** A path for placing on `target`: its first code (popped last) places
      towards the target from where the rest of the path ends, and every
      cell the rest enters is walkable. */
  predicate PlaceRoute(v: Chunks, start: Pos, target: Pos, w: seq<int>)
    requires WellFormed(v)
  {
    && |w| > 0 && 4 <= w[0] < 8 && ValidCodes(w[1..])
    && Move(Replay(start, w[1..]), w[0] - 4) == target
    && forall k | 1 <= k < |w| :: var p := Replay(start, w[k..]); Walkable(ReadTile(v, p.x, p.y))
  }

  /** The path the selected-item click stores: the placing code in front
      of a walkable path that ends next to the target. */
  lemma PlacePath(v: Chunks, start: Pos, target: Pos, path: seq<int>)
    requires WellFormed(v) && ValidCodes(path) && Adjacent(Replay(start, path), target)
    requires forall k | 0 <= k < |path| :: var p := Replay(start, path[k..]); Walkable(ReadTile(v, p.x, p.y))
    ensures var w := [DirectionTo(Replay(start, path), target) + 4] + path;
            StepCodes(w) && PlaceRoute(v, start, target, w)
  {
    var w := [DirectionTo(Replay(start, path), target) + 4] + path;
    assert w[1..] == path;
    forall k | 1 <= k < |w|
      ensures var p := Replay(start, w[k..]); Walkable(ReadTile(v, p.x, p.y))
    {
      assert w[k..] == path[k - 1..];
    }
  }

  /** Walking codes are step codes. */
  lemma StepCodesOf(path: seq<int>)
    requires ValidCodes(path)
    ensures StepCodes(path) && StepCodes([0] + path)
  {
  }
}
