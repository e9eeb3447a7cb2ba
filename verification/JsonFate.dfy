/** What the parser comes to on a text of a value with wide objects, whatever its blanks.
  *
  * Up to 2^27 members the table of an object fits.  Beyond, its memory is refused, or its
  * table has room for the first members only and the key of the next is written outside.
  * Which of these happens first, as the text is read, decides (ParseFate).
  */
module JsonFate {
  import opened Options
  import opened JsonMachine
  import opened JsonPrint
  import opened JsonSpacing
  import opened JsonRoundTrip
  import opened JsonTree
  import T = JsonTwoPass

  datatype Fate = Fits | Refuses | Overruns

  predicate IsRefused(v: Json) {
    BlockRefused(Measured(v, None))
  }

  /** How reading a value ends: well, with an object that is refused its memory, or with a
    * write outside a table. */
  function FateOf(v: Json): Fate
    decreases v, 0
  {
    match v
    case JArr(items) => ItemsFate(items, 0)
    case JObj(members) => if IsRefused(v) then Refuses else MembersFate(members, 0)
    case _ => Fits
  }

  /** ... from element j of an array on. */
  function ItemsFate(items: seq<Json>, j: nat): Fate
    requires j <= |items|
    decreases items, |items| - j
  {
    if j == |items| then Fits
    else if FateOf(items[j]).Fits? then ItemsFate(items, j + 1)
    else FateOf(items[j])
  }

  /** ... from member j of an object on. */
  function MembersFate(members: seq<Member>, j: nat): Fate
    requires j <= |members|
    decreases members, |members| - j
  {
    if j == |members| then Fits
    else if j >= TableRoom(|members|) then Overruns
    else if FateOf(members[j].value).Fits? then MembersFate(members, j + 1)
    else FateOf(members[j].value)
  }

  lemma {:induction false} FitsIff(v: Json)
    ensures FateOf(v).Fits? <==> Narrow(v)
    decreases v, 0
  {
    hide TableRoom, BlockRefused;
    match v
    case JArr(items) => ItemsFitIff(items, 0);
    case JObj(members) =>
      MembersFitIff(members, 0);
      TableRoomBound(|members|);
      if |members| < MAX_MEMBERS {
        FittingTable(Measured(v, None));
      }
    case _ =>
  }

  lemma {:induction false} ItemsFitIff(items: seq<Json>, j: nat)
    requires j <= |items|
    ensures ItemsFate(items, j).Fits? <==> forall k | j <= k < |items| :: Narrow(items[k])
    decreases items, |items| - j
  {
    hide Narrow;
    if j < |items| {
      FitsIff(items[j]);
      ItemsFitIff(items, j + 1);
    }
  }

  lemma {:induction false} MembersFitIff(members: seq<Member>, j: nat)
    requires j <= |members|
    ensures MembersFate(members, j).Fits? <==>
      && (j == |members| || |members| <= TableRoom(|members|))
      && forall k | j <= k < |members| :: Narrow(members[k].value)
    decreases members, |members| - j
  {
    hide Narrow, TableRoom;
    if j < |members| {
      FitsIff(members[j].value);
      MembersFitIff(members, j + 1);
    }
  }

  // ------------------------------------------------------------- the second pass

  /** The second pass, at v in state s, is refused memory: it leaves what was built before
    * v, and the node of v keeps within its table unless it is v itself that is refused. */
  predicate StopsIn(s: State, left: State, refused: bool) {
    && |s.built| < |left.built| && left.built[..|s.built|] == s.built
    && (Hollow(left.built[|s.built|]) <==> refused)
  }

  /** What the run comes to by the fate of what is read. */
  ghost predicate Meets(text: string, here: State, fate: Fate, s: State, refused: bool)
    requires NoNul(text) && here.i <= |text|
  {
    match fate
    case Fits => true
    case Overruns => Run(false, text, here) == Crash
    case Refuses => exists left :: Run(false, text, here) == Failed(false, left) && StopsIn(s, left, refused)
  }

  lemma {:induction false} DueFacts(text: string, s: State, v: Json, e: nat)
    requires Due(false, text, s, v, e)
    ensures NoNul(text) && s.i <= e <= |text| && Printable(v) && PoolHas(s.pool, Region(true, v, s.top, |s.built|))
    ensures s.f == SEEK && s.slen == 0 && EndOf(text, s.i, v) == Some(e)
  {
    hide EndOf, Region;
  }

  /** A container stands where it is due. */
  lemma {:induction false} Stands(text: string, i: nat, v: Json, e: nat)
    requires Printable(v) && EndOf(text, i, v) == Some(e)
    ensures v.JArr? ==> HasAt(text, i, "[") && i + 1 <= |text| && ItemsEnd(text, i + 1, v.items, 0) == Some(e)
    ensures v.JObj? ==> HasAt(text, i, "{") && i + 1 <= |text| && MembersEnd(text, i + 1, v.members, 0) == Some(e)
  {
    hide ItemsEnd, MembersEnd;
  }

  /** An object is refused its memory. */
  lemma {:induction false} RefusedHere(text: string, s: State, v: Json, e: nat)
    requires Due(false, text, s, v, e) && v.JObj? && BlockRefused(Measured(v, s.top))
    ensures s.i <= |text| && Meets(text, s, Refuses, s, true)
  {
    hide Rank, EndOf, MembersEnd, Region, TableBytes, BlockRefused;
    DueFacts(text, s, v, e);
    Stands(text, s.i, v, e);
    HasHead(text, s.i, "{");
    StepProgress(false, text, s);
    RootFacts(true, v, s.top, |s.built|);
    assert s.pool[0] == s.pool[..Count(v)][0];
    T.RefusedIsWide(s.pool[0]);
    var left := Step(false, text, s).left;
    assert left.built == s.built + [Bare(s.pool[0])];
    assert StopsIn(s, left, true);
  }

  lemma {:induction false} RefusedAnywhere(v: Json, parent: Option<nat>)
    ensures BlockRefused(Measured(v, parent)) <==> IsRefused(v)
    ensures IsRefused(v) ==> v.JObj?
  {
  }

  /** A container with j members in place is not what is refused. */
  lemma {:induction false} StopsBelow(s: State, at: State, left: State, n: Node, kids: seq<Node>, refused: bool)
    requires at.built == s.built + [n] + kids && StopsIn(at, left, refused) && !Hollow(n)
    ensures StopsIn(s, left, false)
  {
    assert left.built[..|s.built|] == left.built[..|at.built|][..|s.built|];
    assert left.built[|s.built|] == left.built[..|at.built|][|s.built|];
  }

  lemma {:induction false} ItemsMeet(text: string, s: State, items: seq<Json>, j: nat, i: nat, e: nat)
    requires ArrayReady(false, text, s, items) && j <= |items| && i <= |text|
    requires (forall k | 0 <= k < |items| :: Printable(items[k])) && ItemsEnd(text, i, items, j) == Some(e)
    ensures 1 + CountUpTo(items, |items|) <= |s.pool|
    ensures Meets(text, InArray(false, s, items, j, i, if j > 0 then WAIT else SEEK), ItemsFate(items, j), s, false)
    decreases items, |items| - j
  {
    hide *;
    var f := if j > 0 then WAIT else SEEK;
    var base := |s.built|;
    ArrayFacts(false, text, s, items);
    ArrayFactsAt(false, s, items, j, i, f);
    var here := InArray(false, s, items, j, i, f);
    ItemsFateIs(items, j);
    if j == |items| {
      MeetsFits(text, here, s);
    } else {
      ItemsEndIs(text, i, items, j, e);
      ReachesNext(false, text, s, items, j, i, f);
      var v := items[j];
      var b := Past(text, i);
      var k := if j > 0 then Past(text, b + 1) else b;
      if j > 0 {
        ReachesItem(false, text, s, items, j, b);
      }
      var at := InArray(false, s, items, j, k, SEEK);
      ArrayFactsAt(false, s, items, j, k, SEEK);
      var e1 := EndOf(text, k, v).value;
      ItemDue(false, text, s, items, j, k, e1);
      FitsIff(v);
      if FateOf(v).Fits? {
        NarrowIff(v, Some(base), base + 1 + CountUpTo(items, j));
        IsReady(false, text, at, v, e1);
        ParsesValue(false, text, at, v, e1);
        LinksItem(false, text, s, items, j, k, e1);
        var next := InArray(false, s, items, j + 1, e1, WAIT);
        GoesOn(false, text, at, v, e1, next);
        ItemsMeet(text, s, items, j + 1, e1, e);
        SameRun(text, here, next, ItemsFate(items, j + 1), s);
      } else {
        ValueMeets(text, at, v, e1);
        var n := ArrNode(false, items, s.top, base, j);
        ArrNodeFacts(false, items, s.top, base, j);
        InArrayIs(false, s, items, j, k, SEEK);
        InsideIs(false, s, n, Kids(false, items, base, j), k, SEEK);
        NotHollow(n);
        StaysBelow(text, here, at, FateOf(v), s, n, Kids(false, items, base, j), IsRefused(v));
      }
    }
  }

  lemma {:induction false} NotHollow(n: Node)
    requires n.length <= |n.values|
    ensures !Hollow(n)
  {
  }

  lemma {:induction false} ItemsFateIs(items: seq<Json>, j: nat)
    requires j <= |items|
    ensures ItemsFate(items, j) == if j == |items| then Fits
      else if FateOf(items[j]).Fits? then ItemsFate(items, j + 1) else FateOf(items[j])
  {
    hide FateOf;
  }

  lemma {:induction false} MeetsFits(text: string, here: State, s: State)
    requires NoNul(text) && here.i <= |text|
    ensures Meets(text, here, Fits, s, false)
  {
  }

  /** A part that does not fit decides. */
  lemma {:induction false} StaysBelow(text: string, here: State, at: State, fate: Fate, s: State, n: Node,
          kids: seq<Node>, refused: bool)
    requires NoNul(text) && here.i <= |text| && at.i <= |text| && Run(false, text, here) == Run(false, text, at)
    requires at.built == s.built + [n] + kids && !Hollow(n) && Meets(text, at, fate, at, refused)
    ensures Meets(text, here, fate, s, false)
  {
    hide Run, StopsIn, Hollow;
    if fate.Refuses? {
      var left :| Run(false, text, at) == Failed(false, left) && StopsIn(at, left, refused);
      StopsBelow(s, at, left, n, kids, refused);
    }
  }

  // ----------------------------------------------------------------------- objects

  lemma {:induction false} MembersFateIs(members: seq<Member>, j: nat)
    requires j <= |members|
    ensures MembersFate(members, j) == if j == |members| then Fits
      else if j >= TableRoom(|members|) then Overruns
      else if FateOf(members[j].value).Fits? then MembersFate(members, j + 1) else FateOf(members[j].value)
  {
    hide FateOf, TableRoom;
  }

  /** A character of a key where there is no room for it. */
  lemma {:induction false} CharOverruns(text: string, s: State, c: char)
    requires NoNul(text) && s.i <= |text| && InsideString(s) && s.slen <= LIMIT && c as int <= 0x7F
    requires HasAt(text, s.i, EscapeChar(c)) && !Room(s, 1)
    ensures Run(false, text, s) == Crash
  {
    hide Decode, Rank;
    var e := EscapeChar(c);
    HasHead(text, s.i, e);
    StepProgress(false, text, s);
    if Escapable(c) {
      EscapeDecodes(text, s.i, c);
      var mid := s.(i := s.i + 1, f := INSIDE.(escaped := true));
      assert Step(false, text, s) == Go(mid);
      StepProgress(false, text, mid);
      assert text[s.i + 1] != NUL;
      assert Step(false, text, mid) == Fault;
      assert Run(false, text, mid) == Crash;
    }
  }

  /** The quote behind a key where the table is full or there is no room for the NUL. */
  lemma {:induction false} QuoteOverruns(text: string, s: State)
    requires NoNul(text) && s.i < |text| && text[s.i] == '"' && InsideString(s) && s.slen <= LIMIT
    requires var n := s.built[s.top.value]; n.kind.KObject? && (!Room(s, 1) || n.length >= |n.names|)
    ensures Run(false, text, s) == Crash
  {
    hide Rank, Write;
    StepProgress(false, text, s);
    assert Step(false, text, s) == CloseString(false, s.(f := QUIET, i := s.i + 1));
  }

  /** The next key after the table is full. */
  lemma {:induction false} KeyOverruns(text: string, s: State, key: string)
    requires NoNul(text) && s.i <= |text| && s.f == QUIET && TopKind(s) == Some(KObject) && s.slen == 0
    requires Ascii(key) && |key| <= LIMIT && HasAt(text, s.i, Quote(key))
    requires var n := s.built[s.top.value];
      n.length >= |n.names| && (n.memPos + |key| + 1 <= |n.mem| || (n.mem == [] && n.memPos == 0))
    ensures Run(false, text, s) == Crash
  {
    hide Run, EscapeAll, EscapeChar, Write, AfterChars;
    var body := EscapeAll(key);
    HasBoth(text, s.i, "\"" + body, "\"");
    HasBoth(text, s.i, "\"", body);
    HasHead(text, s.i, "\"");
    HasHead(text, s.i + 1 + |body|, "\"");
    OpensKey(false, text, s);
    var k1 := s.(i := s.i + 1, f := INSIDE, slen := 0);
    var n := s.built[s.top.value];
    if n.memPos + |key| + 1 <= |n.mem| {
      ParsesChars(false, text, k1, key);
      var k2 := AfterChars(false, k1, key, |body|);
      AfterFacts(false, k1, key, |body|);
      AfterTable(k1, key, |body|);
      QuoteOverruns(text, k2);
    } else if key == "" {
      NoBody();
      QuoteOverruns(text, k1);
    } else {
      FirstOfBody(key);
      HasBoth(text, s.i + 1, EscapeChar(key[0]), EscapeAll(key[1..]));
      CharOverruns(text, k1, key[0]);
    }
  }

  lemma {:induction false} AfterTable(s: State, str: string, width: nat)
    requires InsideString(s) && Room(s, |str|)
    ensures var a := AfterChars(false, s, str, width);
      && InsideString(a) && a.built[s.top.value].names == s.built[s.top.value].names
      && a.built[s.top.value].length == s.built[s.top.value].length
      && a.built[s.top.value].kind == s.built[s.top.value].kind && a.top == s.top && |a.built| == |s.built|
  {
    hide Write;
  }

  lemma {:induction false} NoBody()
    ensures EscapeAll("") == ""
  {
  }

  lemma {:induction false} FirstOfBody(key: string)
    requires Ascii(key) && key != ""
    ensures EscapeAll(key) == EscapeChar(key[0]) + EscapeAll(key[1..])
  {
  }

  /** The object after as many members as its table has room for. */
  lemma {:induction false} FullTable(members: seq<Member>, parent: Option<nat>, base: nat, j: nat)
    requires j == TableRoom(|members|) < |members| && !BlockRefused(Measured(JObj(members), parent))
    ensures var n := ObjNode(false, members, parent, base, j); var key := members[j].key;
      && n.kind == KObject && n.length == |n.names|
      && (n.memPos + |key| + 1 <= |n.mem| || (n.mem == [] && n.memPos == 0))
  {
    hide ObjNode, TableBytes;
    ObjNodeFacts(false, members, parent, base, j);
    KeyBytesGrow(members, j + 1, |members|);
  }

  lemma {:induction false} MembersMeet(text: string, s: State, members: seq<Member>, j: nat, i: nat, e: nat)
    requires ObjectReady(false, text, s, members) && j <= |members| && i <= |text|
    requires forall m | 0 <= m < |members| :: Ascii(members[m].key) && Printable(members[m].value)
    requires MembersEnd(text, i, members, j) == Some(e)
    requires !IsRefused(JObj(members)) && j <= TableRoom(|members|)
    ensures 1 + MCountUpTo(members, |members|) <= |s.pool|
    ensures Meets(text, InObject(false, s, members, j, i, QUIET.(needComma := j > 0)),
                  MembersFate(members, j), s, false)
    decreases members, |members| - j
  {
    hide *;
    var f := QUIET.(needComma := j > 0);
    var base := |s.built|;
    ObjectFacts(false, text, s, members);
    ObjectFactsAt(false, s, members, j, i, f);
    var here := InObject(false, s, members, j, i, f);
    MembersFateIs(members, j);
    if j == |members| {
      MeetsFits(text, here, s);
    } else {
      MembersEndIs(text, i, members, j, e);
      FlagFacts();
      ReachesMark(false, text, s, members, j, i, f);
      var b := Past(text, i);
      var k := if j > 0 then Past(text, b + 1) else b;
      if j > 0 {
        ReachesMember(false, text, s, members, j, b);
      }
      var next := InObject(false, s, members, j, k, QUIET);
      ObjectFactsAt(false, s, members, j, k, QUIET);
      if j >= TableRoom(|members|) {
        RefusedAnywhere(JObj(members), s.top);
        FullTable(members, s.top, base, j);
        InObjectIs(false, s, members, j, k, QUIET);
        InsideFacts(false, s, ObjNode(false, members, s.top, base, j), MKids(false, members, base, j), k, QUIET);
        KeyOverruns(text, next, members[j].key);
        MeetsOverrun(text, here, s);
      } else {
        MemberMeets(text, s, members, j, k, here, next, e);
      }
    }
  }

  lemma {:induction false} MeetsOverrun(text: string, here: State, s: State)
    requires NoNul(text) && here.i <= |text| && Run(false, text, here) == Crash
    ensures Meets(text, here, Overruns, s, false)
  {
  }

  /** Member j, with its key about to be read and room for it. */
  lemma {:induction false} MemberMeets(text: string, s: State, members: seq<Member>, j: nat, k: nat, here: State,
          next: State, e: nat)
    requires ObjectReady(false, text, s, members) && j < |members| && j < TableRoom(|members|)
    requires !IsRefused(JObj(members)) && 1 + MCountUpTo(members, |members|) <= |s.pool|
    requires next == InObject(false, s, members, j, k, QUIET)
    requires here.i <= |text| && next.i <= |text| && NoNul(text) && Run(false, text, here) == Run(false, text, next)
    requires HasAt(text, k, Quote(members[j].key)) && k + |Quote(members[j].key)| <= |text|
    requires HasAt(text, Past(text, k + |Quote(members[j].key)|), ":")
    requires Past(text, k + |Quote(members[j].key)|) < |text|
    requires forall m | 0 <= m < |members| :: Ascii(members[m].key) && Printable(members[m].value)
    requires var v := EndOf(text, Past(text, Past(text, k + |Quote(members[j].key)|) + 1), members[j].value);
      v.Some? && v.value <= |text| && MembersEnd(text, v.value, members, j + 1) == Some(e)
    ensures Meets(text, here, if FateOf(members[j].value).Fits? then MembersFate(members, j + 1)
                              else FateOf(members[j].value), s, false)
    decreases members, |members| - j, 0
  {
    hide *;
    var base := |s.built|;
    var v := members[j].value;
    var d := Past(text, Past(text, k + |Quote(members[j].key)|) + 1);
    var e1 := EndOf(text, d, v).value;
    ReachesValue(false, text, s, members, j, k);
    MemberDue(false, text, s, members, j, d, e1);
    var at := InMember(false, s, members, j, d);
    DueFacts(text, at, v, e1);
    FitsIff(v);
    if FateOf(v).Fits? {
      NarrowIff(v, Some(base), base + 1 + MCountUpTo(members, j));
      IsReady(false, text, at, v, e1);
      ParsesValue(false, text, at, v, e1);
      LinksMember(false, text, s, members, j, d, e1);
      var f := QUIET.(needComma := true);
      var then' := InObject(false, s, members, j + 1, e1, f);
      GoesOn(false, text, at, v, e1, then');
      MembersMeet(text, s, members, j + 1, e1, e);
      SameRun(text, here, then', MembersFate(members, j + 1), s);
    } else {
      ValueMeets(text, at, v, e1);
      KeyHasRoom(false, members, s.top, base, j);
      var n := Keyed(false, ObjNode(false, members, s.top, base, j), members[j].key);
      InMemberIs(false, s, members, j, d);
      InsideIs(false, s, n, MKids(false, members, base, j), d, SEEK);
      NotHollow(n);
      StaysBelow(text, here, at, FateOf(v), s, n, MKids(false, members, base, j), IsRefused(v));
    }
  }

  // ------------------------------------------------------------------------ values

  /** The second pass at the text of any printable value. */
  lemma {:induction false} ValueMeets(text: string, s: State, v: Json, e: nat)
    requires Due(false, text, s, v, e)
    ensures NoNul(text) && s.i <= |text| && Meets(text, s, FateOf(v), s, IsRefused(v))
    decreases v, 1
  {
    hide *;
    DueFacts(text, s, v, e);
    Stands(text, s.i, v, e);
    RefusedAnywhere(v, s.top);
    FateIs(v);
    match v
    case JArr(items) =>
      IsArrayReady(text, s, items, e);
      ArrayFacts(false, text, s, items);
      Opens(false, text, s, v, '[');
      ItemsMeet(text, s, items, 0, s.i + 1, e);
      ArrayBegins(s, items);
      InsideFacts(false, s, Begin(false, v, s.top), [], s.i + 1, SEEK);
      SameRun(text, s, InArray(false, s, items, 0, s.i + 1, SEEK), FateOf(v), s);
    case JObj(members) =>
      if IsRefused(v) {
        RefusedHere(text, s, v, e);
      } else {
        IsObjectReady(text, s, members, e);
        ObjectFacts(false, text, s, members);
        Opens(false, text, s, v, '{');
        MembersMeet(text, s, members, 0, s.i + 1, e);
        ObjectBegins(s, members);
        InsideFacts(false, s, Begin(false, v, s.top), [], s.i + 1, QUIET);
        FlagFacts();
        SameRun(text, s, InObject(false, s, members, 0, s.i + 1, QUIET), FateOf(v), s);
      }
    case _ => MeetsFitting(text, s, IsRefused(v));
  }

  lemma {:induction false} MeetsFitting(text: string, s: State, refused: bool)
    requires NoNul(text) && s.i <= |text|
    ensures Meets(text, s, Fits, s, refused)
  {
  }

  lemma {:induction false} FateIs(v: Json)
    ensures FateOf(v) == match v
      case JArr(items) => ItemsFate(items, 0)
      case JObj(members) => if IsRefused(v) then Refuses else MembersFate(members, 0)
      case _ => Fits
  {
    hide ItemsFate, MembersFate, IsRefused;
  }

  lemma {:induction false} SameRun(text: string, here: State, at: State, fate: Fate, s: State)
    requires NoNul(text) && here.i <= |text| && at.i <= |text| && Run(false, text, here) == Run(false, text, at)
    requires Meets(text, at, fate, s, false)
    ensures Meets(text, here, fate, s, false)
  {
    hide Run, StopsIn;
  }

  lemma {:induction false} IsArrayReady(text: string, s: State, items: seq<Json>, e: nat)
    requires Due(false, text, s, JArr(items), e)
    ensures ArrayReady(false, text, s, items)
  {
    hide EndOf, Region;
  }

  lemma {:induction false} IsObjectReady(text: string, s: State, members: seq<Member>, e: nat)
    requires Due(false, text, s, JObj(members), e)
    ensures ObjectReady(false, text, s, members)
  {
    hide EndOf, Region;
  }

  lemma {:induction false} ArrayBegins(s: State, items: seq<Json>)
    requires 1 + CountUpTo(items, |items|) <= |s.pool|
    ensures InArray(false, s, items, 0, s.i + 1, SEEK)
         == Inside(false, s, Begin(false, JArr(items), s.top), [], s.i + 1, SEEK)
  {
  }

  lemma {:induction false} ObjectBegins(s: State, members: seq<Member>)
    requires 1 + MCountUpTo(members, |members|) <= |s.pool|
    ensures InObject(false, s, members, 0, s.i + 1, QUIET)
         == Inside(false, s, Begin(false, JObj(members), s.top), [], s.i + 1, QUIET)
  {
  }

  // -------------------------------------------------------------------- whole texts

  /** What becomes of any text of a printable value: it is accepted exactly when all tables
    * fit; a write outside a table, and a root that is refused, are faults; any other object
    * that is refused makes the parser reject. */
  lemma {:induction false} ParseFate(text: string, v: Json)
    requires Spelled(text, v)
    ensures NoNul(text)
    ensures Parse(text).Accepted? <==> FateOf(v).Fits?
    ensures Parse(text) == Crash <==> FateOf(v).Overruns? || IsRefused(v)
    ensures Parse(text).Refused? <==> FateOf(v).Refuses? && !IsRefused(v)
  {
    hide *;
    SpelledFacts(text, v);
    SpelledParse(text, v);
    FitsIff(v);
    RefusedAnywhere(v, None);
    FateIs(v);
    if !FateOf(v).Fits? {
      var pool := Region(true, v, None, 0);
      WholePass(true, text, v, []);
      PoolOf(pool);
      StartsDue(false, text, v, pool);
      var s := Start(pool).(i := Past(text, 0));
      StartIs(pool);
      SkipsGap(false, text, Start(pool));
      ValueMeets(text, s, v, EndOf(text, Past(text, 0), v).value);
      ParseIs(text, pool);
      EndsAs(text, s, FateOf(v), IsRefused(v));
    }
  }

  lemma {:induction false} PoolOf(pool: seq<Node>)
    ensures PoolHas(pool, pool)
  {
    assert pool[..|pool|] == pool;
  }

  lemma {:induction false} ParseIs(text: string, pool: seq<Node>)
    requires NoNul(text) && Run(true, text, Start([])) == Accepted(pool)
    ensures Parse(text) == Run(false, text, Start(pool))
  {
    hide Run;
  }

  lemma {:induction false} EndsAs(text: string, s: State, fate: Fate, refused: bool)
    requires NoNul(text) && s.i <= |text| && s.built == [] && Meets(text, s, fate, s, refused) && !fate.Fits?
    ensures fate.Overruns? ==> Run(false, text, s) == Crash
    ensures fate.Refuses? ==> (if refused then Run(false, text, s) == Crash else Run(false, text, s).Refused?)
  {
    hide Run, Hollow;
  }

  // ---------------------------------------------------------------- three examples

  /** An object of n members with empty keys. */
  function Wide(n: nat): Json {
    JObj(seq(n, k => Member("", JNull)))
  }

  lemma {:induction false} EmptyKeyBytes(members: seq<Member>, j: nat)
    requires j <= |members| && forall k | 0 <= k < |members| :: members[k].key == ""
    ensures KeyBytes(members, j) == j
    decreases j
  {
    if j > 0 {
      EmptyKeyBytes(members, j - 1);
    }
  }

  /** From 2^27 members on the size is negative, and 2^27 keys do not make up for it; with
    * 2^28 members it comes out as 0. */
  lemma {:induction false} WideFates()
    ensures Printable(Wide(MAX_MEMBERS)) && Printable(Wide(0x1000_0000))
    ensures IsRefused(Wide(MAX_MEMBERS)) && FateOf(Wide(MAX_MEMBERS)) == Refuses
    ensures !IsRefused(Wide(0x1000_0000)) && FateOf(Wide(0x1000_0000)) == Overruns
  {
    var a, b := Wide(MAX_MEMBERS).members, Wide(0x1000_0000).members;
    EmptyKeyBytes(a, |a|);
    EmptyKeyBytes(b, |b|);
    assert MembersFate(b, 0) == Overruns;
  }

  /** A root of 2^27 members is refused its memory, and the clean-up reads its null table;
    * inside an array it is refused and nothing else happens; 2^28 members get a table of 0
    * bytes, and the first key is written outside. */
  lemma {:induction false} WideObjects()
    ensures var v := Wide(MAX_MEMBERS);
      Printable(v) && NoNul(Str(v)) && Parse(Str(v)) == Crash
    ensures var v := JArr([Wide(MAX_MEMBERS)]);
      Printable(v) && NoNul(Str(v)) && Parse(Str(v)).Refused?
    ensures var v := Wide(0x1000_0000);
      Printable(v) && NoNul(Str(v)) && Parse(Str(v)) == Crash
  {
    hide Str, Parse, Wide, IsRefused, Woven, Tokens, Spelled;
    WideFates();
    StrIsWoven(Wide(MAX_MEMBERS));
    ParseFate(Str(Wide(MAX_MEMBERS)), Wide(MAX_MEMBERS));
    StrIsWoven(Wide(0x1000_0000));
    ParseFate(Str(Wide(0x1000_0000)), Wide(0x1000_0000));
    var v := JArr([Wide(MAX_MEMBERS)]);
    assert Printable(v);
    assert ItemsFate(v.items, 0) == Refuses;
    RefusedAnywhere(v, None);
    StrIsWoven(v);
    ParseFate(Str(v), v);
  }
}
