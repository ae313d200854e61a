/** Where the blocks of a CFG come from.

    `Places` lists the blocks a structured function's code is written into as the pass walks it, each
    with the loops the code is in: their headers, innermost first, and the bounds written on them.
    `BlocksKeepTheirLoops`: in the finished CFG every block of the order is one of them, and following
    `loop` and `outer` from it comes to exactly these headers, which still carry these bounds.
  */
module FlattenerPlaces {
  import opened Ir
  import opened Flattener
  import opened FlattenerInvariant
  import opened Interpreter

  /** A loop the code is in. */
  datatype Opened = Opened(header: nat, bound: U32)

  datatype Place = Place(block: nat, loops: seq<Opened>)

  /** The blocks the code is written into, in order; some more than once. */
  ghost function Places(f: Flattening, code: Code, loops: seq<Opened>): seq<Place>
    requires f.Valid() && 0 < |f.blocks| && WellScoped(code, AroundOf(f.frames))
    decreases code, 1
  {
    [Place(f.current, loops)] +
    if code == End then [] else PlacesInside(f, code, loops) + Places(FlattenHead(f, code), code.next, loops)
  }

  ghost function PlacesInside(f: Flattening, code: Code, loops: seq<Opened>): seq<Place>
    requires code != End && f.Valid() && 0 < |f.blocks| && WellScoped(code, AroundOf(f.frames))
    decreases code, 0
  {
    match code
    case Block(region, body, _, _) =>
      AroundPush(f.frames, Frame(region, |f.blocks|, 0));
      Places(IntoBlock(f, region), body, loops)
    case If(_, _, _, hasElse, otherwise, _, _) =>
      SidePlaces(f, code, loops) + if hasElse then Places(SecondSide(f, code), otherwise, loops) else []
    case Loop(region, bound, body, at, _) =>
      AroundPush(f.frames, Frame(region, |f.blocks| + 1, |f.blocks|));
      Places(IntoLoop(f, region, bound, at), body, [Opened(|f.blocks|, bound)] + loops)
    case _ => []
  }

  /** An `if`'s first side. */
  ghost function SidePlaces(f: Flattening, code: Code, loops: seq<Opened>): seq<Place>
    requires code.If? && f.Valid() && 0 < |f.blocks| && WellScoped(code, AroundOf(f.frames))
    decreases code, 0, 0
  {
    AroundPush(f.frames, Frame(code.region, AfterIf(f, code.hasElse), 0));
    Places(IntoIf(f, code.region, code.condition, code.hasElse, code.at), code.chosen, loops)
  }

  lemma ElsePlaces(f: Flattening, code: Code, loops: seq<Opened>)
    requires code.If? && f.Valid() && 0 < |f.blocks| && WellScoped(code, AroundOf(f.frames))
    ensures !code.hasElse ==> PlacesInside(f, code, loops) == SidePlaces(f, code, loops)
    ensures code.hasElse ==> PlacesInside(f, code, loops) == SidePlaces(f, code, loops) + Places(SecondSide(f, code), code.otherwise, loops)
  {
    hide Places, SidePlaces, IntoIf, FlattenCode;
    assert SidePlaces(f, code, loops) + [] == SidePlaces(f, code, loops);
  }

  function Headers(loops: seq<Opened>): seq<nat> {
    seq(|loops|, i requires 0 <= i < |loops| => loops[i].header)
  }

  ghost predicate AreOpened(blocks: seq<BasicBlock>, loops: seq<Opened>) {
    forall loop <- loops :: loop.header < |blocks| && blocks[loop.header].header && blocks[loop.header].bound == loop.bound
  }

  /** The block is in exactly these loops. */
  ghost predicate Holds(blocks: seq<BasicBlock>, place: Place) {
    && place.block < |blocks| && blocks[place.block].loop < |blocks|
    && LoopsAround(blocks, blocks[place.block].loop) == Headers(place.loops)
    && AreOpened(blocks, place.loops)
  }

  ghost predicate AllHold(blocks: seq<BasicBlock>, places: seq<Place>) {
    forall place <- places :: Holds(blocks, place)
  }

  /** These are the loops the pass is in. */
  ghost predicate Knows(f: Flattening, loops: seq<Opened>) {
    HeadersOf(f.frames) == Headers(loops) && AreOpened(f.blocks, loops)
  }

  lemma Stays(blocks: seq<BasicBlock>, final: seq<BasicBlock>, place: Place)
    requires Holds(blocks, place) && Grows(blocks, final) && final[place.block].loop == blocks[place.block].loop
    ensures Holds(final, place)
  {
    SameLoopsAround(blocks, final, blocks[place.block].loop);
    StayOpened(blocks, final, place.loops);
  }

  lemma StayOpened(blocks: seq<BasicBlock>, final: seq<BasicBlock>, loops: seq<Opened>)
    requires AreOpened(blocks, loops) && Grows(blocks, final)
    ensures AreOpened(final, loops)
  {
    forall loop <- loops
      ensures loop.header < |final| && final[loop.header].header && final[loop.header].bound == loop.bound
    {
      assert GrowsBlock(blocks[loop.header], final[loop.header]);
    }
  }

  /** What is written after leaves the blocks there were in their loops. */
  lemma AllStay(f: Flattening, g: Flattening, places: seq<Place>)
    requires f.Valid() && g.Valid() && Extends(f, g) && AllHold(f.blocks, places)
    ensures AllHold(g.blocks, places)
  {
    ExtendsGrows(f, g);
    forall place <- places
      ensures Holds(g.blocks, place)
    {
      assert Holds(f.blocks, place);
      Stays(f.blocks, g.blocks, place);
    }
  }

  /** And placing another block does. */
  lemma AllStayMoving(f: Flattening, g: Flattening, after: nat, places: seq<Place>)
    requires f.Valid() && g.Valid() && after < |f.blocks| && Moves(f, g, after) && Grows(f.blocks, g.blocks) && AllHold(f.blocks, places)
    requires forall place <- places :: place.block != after
    ensures AllHold(g.blocks, places)
  {
    forall place <- places
      ensures Holds(g.blocks, place)
    {
      assert Holds(f.blocks, place);
      Stays(f.blocks, g.blocks, place);
    }
  }

  ghost predicate AreNew(f: Flattening, places: seq<Place>) {
    forall place <- places :: place.block == f.current || |f.blocks| <= place.block
  }

  /** Code is written into the block being written and into new ones. */
  lemma {:induction false} PlacesAreNew(f: Flattening, code: Code, loops: seq<Opened>)
    requires Inv(f) && WellScoped(code, AroundOf(f.frames))
    ensures AreNew(f, Places(f, code, loops))
    decreases code, 1
  {
    hide Inv, FlattenHead, PlacesInside, Extends;
    if code != End {
      IsValid(f);
      FlattenHeadKeeps(f, code);
      PlacesInsideAreNew(f, code, loops);
      PlacesAreNew(FlattenHead(f, code), code.next, loops);
      NewSince(f, FlattenHead(f, code), Places(FlattenHead(f, code), code.next, loops));
    }
  }

  lemma {:induction false} PlacesInsideAreNew(f: Flattening, code: Code, loops: seq<Opened>)
    requires code != End && Inv(f) && WellScoped(code, AroundOf(f.frames))
    ensures AreNew(f, PlacesInside(f, code, loops))
    decreases code, 0
  {
    hide Inv, IntoBlock, IntoLoop, Places, Extends;
    IsValid(f);
    match code
    case Block(region, body, _, _) =>
      AroundPush(f.frames, Frame(region, |f.blocks|, 0));
      IntoBlockKeeps(f, region);
      PlacesAreNew(IntoBlock(f, region), body, loops);
      NewSince(f, IntoBlock(f, region), PlacesInside(f, code, loops));
    case If(_, _, _, _, _, _, _) => SidesAreNew(f, code, loops);
    case Loop(region, bound, body, at, _) =>
      AroundPush(f.frames, Frame(region, |f.blocks| + 1, |f.blocks|));
      IntoLoopKeeps(f, region, bound, at);
      PlacesAreNew(IntoLoop(f, region, bound, at), body, [Opened(|f.blocks|, bound)] + loops);
      NewSince(f, IntoLoop(f, region, bound, at), PlacesInside(f, code, loops));
    case _ =>
  }

  lemma NewSince(f: Flattening, g: Flattening, places: seq<Place>)
    requires f.Valid() && g.Valid() && Extends(f, g) && AreNew(g, places)
    ensures AreNew(f, places)
  {
  }

  lemma {:induction false} SidesAreNew(f: Flattening, code: Code, loops: seq<Opened>)
    requires code.If? && Inv(f) && WellScoped(code, AroundOf(f.frames))
    ensures AreNew(f, PlacesInside(f, code, loops))
    decreases code, 0, 0
  {
    hide Inv, IntoIf, Places, Extends, PlacesInside, FlattenCode;
    IsValid(f);
    ElsePlaces(f, code, loops);
    AroundPush(f.frames, Frame(code.region, AfterIf(f, code.hasElse), 0));
    var g := IntoIf(f, code.region, code.condition, code.hasElse, code.at);
    IntoIfKeeps(f, code.region, code.condition, code.hasElse, code.at);
    PlacesAreNew(g, code.chosen, loops);
    NewSince(f, g, SidePlaces(f, code, loops));
    if code.hasElse {
      SecondSideKeeps(f, code);
      PlacesAreNew(SecondSide(f, code), code.otherwise, loops);
      NewSince(f, SecondSide(f, code), Places(SecondSide(f, code), code.otherwise, loops));
    }
  }

  lemma HoldsHere(f: Flattening, loops: seq<Opened>)
    requires Inv(f) && Knows(f, loops)
    ensures Holds(f.blocks, Place(f.current, loops))
  {
  }

  lemma {:induction false} PlacesHold(f: Flattening, code: Code, loops: seq<Opened>)
    requires Inv(f) && WellScoped(code, AroundOf(f.frames)) && Knows(f, loops)
    ensures AllHold(FlattenCode(f, code).blocks, Places(f, code, loops))
    decreases code, 1
  {
    hide Inv, Extends, PlacesInside, FlattenHead, Holds;
    IsValid(f);
    HoldsHere(f, loops);
    if code != End {
      var g := FlattenHead(f, code);
      FlattenHeadKeeps(f, code);
      FlattenCodeKeeps(g, code.next);
      AllStay(f, FlattenCode(f, code), [Place(f.current, loops)]) by { ExtendsTransitive(f, g, FlattenCode(g, code.next)); }
      PlacesInsideHold(f, code, loops);
      AllStay(g, FlattenCode(g, code.next), PlacesInside(f, code, loops));
      ExtendsGrows(f, g);
      StayOpened(f.blocks, g.blocks, loops);
      PlacesHold(g, code.next, loops);
    }
  }

  lemma {:induction false} PlacesInsideHold(f: Flattening, code: Code, loops: seq<Opened>)
    requires code != End && Inv(f) && WellScoped(code, AroundOf(f.frames)) && Knows(f, loops)
    ensures AllHold(FlattenHead(f, code).blocks, PlacesInside(f, code, loops))
    decreases code, 0
  {
    match code
    case Block(_, _, _, _) => BlockPlaces(f, code, loops);
    case If(_, _, _, _, _, _, _) => IfPlaces(f, code, loops);
    case Loop(_, _, _, _, _) => LoopPlaces(f, code, loops);
    case _ =>
  }

  lemma {:induction false} BlockPlaces(f: Flattening, code: Code, loops: seq<Opened>)
    requires code.Block? && Inv(f) && WellScoped(code, AroundOf(f.frames)) && Knows(f, loops)
    ensures AllHold(AcrossBlock(f, code).blocks, PlacesInside(f, code, loops))
    decreases code, 0, 0
  {
    hide LoopsAround, HeadersOf, FlattenCode, OutOf, AllHold;
    AroundPush(f.frames, Frame(code.region, |f.blocks|, 0));
    var g := IntoBlock(f, code.region);
    var places := Places(g, code.body, loops);
    IntoBlockKeeps(f, code.region);
    KnowsInside(f, g, Frame(code.region, |f.blocks|, 0), loops);
    PlacesAreNew(g, code.body, loops);
    PlacesHold(g, code.body, loops);
    FlattenCodeKeeps(g, code.body);
    BlockKeeps(f, code);
    OutOfMoves(InBlock(f, code), |f.blocks|, |f.blocks|, f.loop, code.at);
    AllStayMoving(InBlock(f, code), AcrossBlock(f, code), |f.blocks|, places);
  }

  /** Into a region that is no loop. */
  lemma KnowsInside(f: Flattening, g: Flattening, frame: Frame, loops: seq<Opened>)
    requires f.Valid() && g.Valid() && Extends(f, g) && g.frames == f.frames + [frame] && frame.top == 0 && Knows(f, loops)
    ensures Knows(g, loops)
  {
    HeadersPush(f.frames, frame);
    ExtendsGrows(f, g);
    StayOpened(f.blocks, g.blocks, loops);
  }

  lemma KnowsLoop(f: Flattening, region: nat, bound: U32, at: Position, loops: seq<Opened>)
    requires Inv(f) && Knows(f, loops)
    ensures Knows(IntoLoop(f, region, bound, at), [Opened(|f.blocks|, bound)] + loops)
  {
    hide Inv, AreOpened, HeadersOf, IntoLoop;
    IsValid(f);
    var g, made := IntoLoop(f, region, bound, at), Opened(|f.blocks|, bound);
    IntoLoopKeeps(f, region, bound, at);
    HeadersPush(f.frames, Frame(region, |f.blocks| + 1, |f.blocks|));
    ExtendsGrows(f, g);
    StayOpened(f.blocks, g.blocks, loops);
    HeaderIsOpened(f, region, bound, at);
    OneMoreOpened(g.blocks, made, loops);
    assert Headers([made] + loops) == [|f.blocks|] + Headers(loops);
  }

  lemma HeaderIsOpened(f: Flattening, region: nat, bound: U32, at: Position)
    requires f.Valid()
    ensures var header := IntoLoop(f, region, bound, at).blocks[|f.blocks|]; header.header && header.bound == bound
  {
  }

  lemma OneMoreOpened(blocks: seq<BasicBlock>, made: Opened, loops: seq<Opened>)
    requires AreOpened(blocks, loops) && made.header < |blocks| && blocks[made.header].header && blocks[made.header].bound == made.bound
    ensures AreOpened(blocks, [made] + loops)
  {
  }

  lemma {:induction false} LoopPlaces(f: Flattening, code: Code, loops: seq<Opened>)
    requires code.Loop? && Inv(f) && WellScoped(code, AroundOf(f.frames)) && Knows(f, loops)
    ensures AllHold(AcrossLoop(f, code).blocks, PlacesInside(f, code, loops))
    decreases code, 0, 0
  {
    hide LoopsAround, HeadersOf, FlattenCode, IntoLoop, OutOf, AllHold;
    AroundPush(f.frames, Frame(code.region, |f.blocks| + 1, |f.blocks|));
    var g := IntoLoop(f, code.region, code.bound, code.at);
    var within := [Opened(|f.blocks|, code.bound)] + loops;
    var places := Places(g, code.body, within);
    IntoLoopKeeps(f, code.region, code.bound, code.at);
    IntoLoopAfter(f, code);
    KnowsLoop(f, code.region, code.bound, code.at, loops);
    PlacesAreNew(g, code.body, within);
    PlacesHold(g, code.body, within);
    FlattenCodeKeeps(g, code.body);
    LoopKeeps(f, code);
    OutOfMoves(InLoop(f, code), |f.blocks|, |f.blocks| + 1, f.loop, code.at);
    AllStayMoving(InLoop(f, code), AcrossLoop(f, code), |f.blocks| + 1, places);
  }

  /** The first side of an `if`, at its end. */
  lemma {:induction false} SideHolds(f: Flattening, code: Code, loops: seq<Opened>)
    requires code.If? && Inv(f) && WellScoped(code, AroundOf(f.frames)) && Knows(f, loops)
    ensures AllHold(FirstSide(f, code).blocks, SidePlaces(f, code, loops))
    ensures forall place <- SidePlaces(f, code, loops) :: place.block == |f.blocks| || AfterIf(f, code.hasElse) < place.block
    ensures Knows(IntoIf(f, code.region, code.condition, code.hasElse, code.at), loops)
    decreases code, 0, 0
  {
    hide LoopsAround, HeadersOf, FlattenCode, IntoIf, AllHold, Places, Inv;
    IsValid(f);
    AroundPush(f.frames, Frame(code.region, AfterIf(f, code.hasElse), 0));
    var g := IntoIf(f, code.region, code.condition, code.hasElse, code.at);
    IntoIfKeeps(f, code.region, code.condition, code.hasElse, code.at);
    IntoIfWrites(f, code.region, code.condition, code.hasElse, code.at);
    KnowsInside(f, g, Frame(code.region, AfterIf(f, code.hasElse), 0), loops);
    PlacesAreNew(g, code.chosen, loops);
    PlacesHold(g, code.chosen, loops);
  }

  /** The other side, at its end, where the first side's are as they were. */
  lemma {:induction false} ElseHolds(f: Flattening, code: Code, loops: seq<Opened>, places: seq<Place>)
    requires code.If? && code.hasElse && Inv(f) && WellScoped(code, AroundOf(f.frames))
    requires Knows(IntoIf(f, code.region, code.condition, code.hasElse, code.at), loops)
    requires AllHold(FirstSide(f, code).blocks, places) && forall place <- places :: place.block != |f.blocks| + 1
    ensures var otherwise := Places(SecondSide(f, code), code.otherwise, loops);
            && AllHold(BothSides(f, code).blocks, places + otherwise)
            && forall place <- otherwise :: place.block != |f.blocks| + 2
    decreases code, 0, 0
  {
    hide LoopsAround, HeadersOf, FlattenCode, IntoIf, IntoElse, Places;
    var g, first, second := IntoIf(f, code.region, code.condition, code.hasElse, code.at), FirstSide(f, code), SecondSide(f, code);
    FirstSideKeeps(f, code);
    SecondSideKeeps(f, code);
    IntoIfWrites(f, code.region, code.condition, code.hasElse, code.at);
    IntoElseMoves(first, |f.blocks| + 1, AfterIf(f, true), code.at);
    AllStayMoving(first, second, |f.blocks| + 1, places);
    ExtendsGrows(g, first);
    StayOpened(g.blocks, first.blocks, loops);
    StayOpened(first.blocks, second.blocks, loops);
    PlacesAreNew(second, code.otherwise, loops);
    PlacesHold(second, code.otherwise, loops);
    FlattenCodeKeeps(second, code.otherwise);
    AllStay(second, BothSides(f, code), places);
  }

  /** At the end of an `if`'s last side, both sides' blocks are in the loops around it. */
  lemma {:induction false} SidesHold(f: Flattening, code: Code, loops: seq<Opened>)
    requires code.If? && Inv(f) && WellScoped(code, AroundOf(f.frames)) && Knows(f, loops)
    ensures AllHold(BothSides(f, code).blocks, PlacesInside(f, code, loops))
    ensures forall place <- PlacesInside(f, code, loops) :: place.block != AfterIf(f, code.hasElse)
    decreases code, 0, 1
  {
    hide FlattenCode, IntoIf, IntoElse, AllHold, PlacesInside, Places, SidePlaces, Inv, Knows;
    IsValid(f);
    ElsePlaces(f, code, loops);
    SideHolds(f, code, loops);
    if code.hasElse {
      ElseHolds(f, code, loops, SidePlaces(f, code, loops));
    }
  }

  lemma {:induction false} IfPlaces(f: Flattening, code: Code, loops: seq<Opened>)
    requires code.If? && Inv(f) && WellScoped(code, AroundOf(f.frames)) && Knows(f, loops)
    ensures AllHold(AcrossIf(f, code).blocks, PlacesInside(f, code, loops))
    decreases code, 0, 2
  {
    hide LoopsAround, HeadersOf, FlattenCode, IntoIf, OutOf, AllHold;
    var after := AfterIf(f, code.hasElse);
    SidesHold(f, code, loops);
    IfKeeps(f, code);
    AfterWaits(f, code);
    OutOfMoves(BothSides(f, code), after, after, f.loop, code.at);
    AllStayMoving(BothSides(f, code), AcrossIf(f, code), after, PlacesInside(f, code, loops));
  }

  /** The block after an `if` waits while its sides are written. */
  lemma AfterWaits(f: Flattening, code: Code)
    requires code.If? && Inv(f) && WellScoped(code, AroundOf(f.frames)) && Inv(BothSides(f, code))
    ensures var sides, after := BothSides(f, code), AfterIf(f, code.hasElse);
            after < |sides.blocks| && after != sides.current && !sides.blocks[after].header
  {
    hide LoopsAround, HeadersOf, FlattenCode, IntoIf;
    var frame := Frame(code.region, AfterIf(f, code.hasElse), 0);
    assert BothSides(f, code).frames == f.frames + [frame];
    assert frame in BothSides(f, code).frames;
    assert Waiting(BothSides(f, code), frame);
  }

  // ----- Every block of the order -----

  ghost predicate Written(places: seq<Place>, block: nat) {
    exists place <- places :: place.block == block
  }

  lemma WrittenIn(places: seq<Place>, more: seq<Place>, block: nat)
    requires Written(places, block) || Written(more, block)
    ensures Written(places + more, block)
  {
    var place :| place in places + more && place.block == block;
  }

  lemma {:induction false} OrderIsWritten(f: Flattening, code: Code, loops: seq<Opened>)
    requires f.Valid() && 0 < |f.blocks| && WellScoped(code, AroundOf(f.frames))
    ensures forall block <- FlattenCode(f, code).order :: block in f.order || Written(Places(f, code, loops), block)
    decreases code, 1
  {
    if code != End {
      hide Written, FlattenHead, PlacesInside;
      var g := FlattenHead(f, code);
      HeadIsWritten(f, code, loops);
      OrderIsWritten(g, code.next, loops);
      CurrentIsWritten(g, code.next, loops);
      var inside, rest := PlacesInside(f, code, loops), Places(g, code.next, loops);
      forall block <- FlattenCode(f, code).order | block !in f.order
        ensures Written([Place(f.current, loops)] + (inside + rest), block)
      {
        WrittenIn(inside, rest, block);
        WrittenIn([Place(f.current, loops)], inside + rest, block);
      }
    }
  }

  lemma CurrentIsWritten(f: Flattening, code: Code, loops: seq<Opened>)
    requires f.Valid() && 0 < |f.blocks| && WellScoped(code, AroundOf(f.frames))
    ensures Written(Places(f, code, loops), f.current)
  {
    assert Places(f, code, loops)[0] == Place(f.current, loops);
  }

  /** What a region's walk puts in the order is a block of the region, or the one after. */
  lemma {:induction false} HeadIsWritten(f: Flattening, code: Code, loops: seq<Opened>)
    requires code != End && f.Valid() && 0 < |f.blocks| && WellScoped(code, AroundOf(f.frames))
    ensures var g := FlattenHead(f, code);
            forall block <- g.order :: block in f.order || block == g.current || Written(PlacesInside(f, code, loops), block)
    decreases code, 0
  {
    hide Places, Written, FlattenCode, OutOf, IntoBlock, IntoLoop, IntoIf;
    match code
    case Block(region, body, at, _) =>
      AroundPush(f.frames, Frame(region, |f.blocks|, 0));
      OrderIsWritten(IntoBlock(f, region), body, loops);
      IntoBlockOrders(f, region);
      OutOfOrders(InBlock(f, code), |f.blocks|, |f.blocks|, f.loop, at);
    case If(_, _, _, hasElse, _, at, _) =>
      SidesAreWritten(f, code, loops);
      OutOfOrders(BothSides(f, code), AfterIf(f, hasElse), AfterIf(f, hasElse), f.loop, at);
    case Loop(region, bound, body, at, _) =>
      LoopIsWritten(f, code, loops);
      OutOfOrders(InLoop(f, code), |f.blocks|, |f.blocks| + 1, f.loop, at);
    case _ =>
  }

  lemma {:induction false} LoopIsWritten(f: Flattening, code: Code, loops: seq<Opened>)
    requires code.Loop? && f.Valid() && 0 < |f.blocks| && WellScoped(code, AroundOf(f.frames))
    ensures forall block <- InLoop(f, code).order :: block in f.order || Written(PlacesInside(f, code, loops), block)
    decreases code, 0, 0
  {
    hide Places, Written, FlattenCode;
    AroundPush(f.frames, Frame(code.region, |f.blocks| + 1, |f.blocks|));
    var g, within := IntoLoop(f, code.region, code.bound, code.at), [Opened(|f.blocks|, code.bound)] + loops;
    OrderIsWritten(g, code.body, within);
    CurrentIsWritten(g, code.body, within);
    IntoLoopOrders(f, code.region, code.bound, code.at);
    hide IntoLoop;
  }

  lemma IntoBlockOrders(f: Flattening, region: nat)
    requires f.Valid()
    ensures IntoBlock(f, region).order == f.order
  {
  }

  lemma IntoLoopOrders(f: Flattening, region: nat, bound: U32, at: Position)
    requires f.Valid()
    ensures var g := IntoLoop(f, region, bound, at); forall block <- g.order :: block in f.order || block == g.current
  {
  }

  lemma IntoIfOrders(f: Flattening, region: nat, condition: nat, hasElse: bool, at: Position)
    requires f.Valid()
    ensures var g := IntoIf(f, region, condition, hasElse, at); forall block <- g.order :: block in f.order || block == g.current
  {
  }

  lemma IntoElseOrders(g: Flattening, otherwise: nat, after: nat, at: Position)
    requires g.Valid() && otherwise < |g.blocks| && after < |g.blocks|
    ensures var h := IntoElse(g, otherwise, after, at); forall block <- h.order :: block in g.order || block == h.current
  {
  }

  lemma {:induction false} SidesAreWritten(f: Flattening, code: Code, loops: seq<Opened>)
    requires code.If? && f.Valid() && 0 < |f.blocks| && WellScoped(code, AroundOf(f.frames))
    ensures forall block <- BothSides(f, code).order :: block in f.order || Written(PlacesInside(f, code, loops), block)
    decreases code, 0, 1
  {
    hide Places, Written, FlattenCode, IntoIf, PlacesInside, SidePlaces, IntoElse, FirstSide;
    ElsePlaces(f, code, loops);
    SideIsWritten(f, code, loops);
    if code.hasElse {
      var second := SecondSide(f, code);
      OrderIsWritten(second, code.otherwise, loops);
      CurrentIsWritten(second, code.otherwise, loops);
      IntoElseOrders(FirstSide(f, code), |f.blocks| + 1, AfterIf(f, true), code.at);
      forall block <- BothSides(f, code).order | block !in f.order
        ensures Written(SidePlaces(f, code, loops) + Places(second, code.otherwise, loops), block)
      {
        WrittenIn(SidePlaces(f, code, loops), Places(second, code.otherwise, loops), block);
      }
    }
  }

  lemma {:induction false} SideIsWritten(f: Flattening, code: Code, loops: seq<Opened>)
    requires code.If? && f.Valid() && 0 < |f.blocks| && WellScoped(code, AroundOf(f.frames))
    ensures forall block <- FirstSide(f, code).order :: block in f.order || Written(SidePlaces(f, code, loops), block)
    decreases code, 0, 0
  {
    hide Places, Written, FlattenCode;
    AroundPush(f.frames, Frame(code.region, AfterIf(f, code.hasElse), 0));
    var g := IntoIf(f, code.region, code.condition, code.hasElse, code.at);
    OrderIsWritten(g, code.chosen, loops);
    CurrentIsWritten(g, code.chosen, loops);
    IntoIfOrders(f, code.region, code.condition, code.hasElse, code.at);
    hide IntoIf;
  }

  lemma OutOfOrders(g: Flattening, target: nat, after: nat, loop: nat, at: Position)
    requires g.Valid() && g.frames != [] && target < |g.blocks| && after < |g.blocks| && loop < |g.blocks|
    ensures forall block <- OutOf(g, target, after, loop, at).order :: block in g.order || block == after
  {
  }

  // ----- The finished CFG -----

  lemma BeginsOutside(parameters: nat)
    ensures Inv(Begun(parameters)) && Knows(Begun(parameters), [])
  {
  }

  /** Every block of the order was written for code in some loops, and it is in exactly these: from it
      `loop` and `outer` lead to their headers, innermost first, which carry the bounds written. */
  lemma BlocksKeepTheirLoops(function_: Structured)
    requires Flattenable(function_)
    ensures AroundOf([]) == []
    ensures var (cfg, places) := (Flatten(function_), Places(Begun(function_.parameters), function_.body, []));
            && (forall block <- cfg.order :: Written(places, block))
            && (forall place <- places ::
                  && place.block < |cfg.blocks|
                  && LoopsAround(cfg.blocks, cfg.blocks[place.block].loop) == Headers(place.loops)
                  && (forall loop <- place.loops ::
                        loop.header < |cfg.blocks| && cfg.blocks[loop.header].header && cfg.blocks[loop.header].bound == loop.bound))
  {
    hide FlattenCode, Places, Written, LoopsAround;
    assert AroundOf([]) == [];
    var f, places := Begun(function_.parameters), Places(Begun(function_.parameters), function_.body, []);
    BeginsOutside(function_.parameters);
    PlacesHold(f, function_.body, []);
    OrderIsWritten(f, function_.body, []);
    CurrentIsWritten(f, function_.body, []);
    forall place <- places
      ensures Holds(Flatten(function_).blocks, place)
    {
      assert Holds(Walked(function_).blocks, place);
    }
  }
}
