/** The twin parse of whole documents: what recursion over the JSON tree would give, and
    exactly when the parse gives it. */
module TwinParse {
  import opened Options
  import opened JsonTokens
  import opened TwinWalk
  import opened TwinTree

  /** The members the walk is about, and the text behind them: those of the document for a
      patch, those of "desired" for a full twin.  If "desired" holds no object, the walk is
      about what follows it in the document. */
  function Subject(doc: Json, isPartial: bool): Option<(Members, seq<Token>)> {
    if !doc.Obj? then None
    else if isPartial then Some((doc.members, []))
    else match Locate(doc.members, DESIRED)
      case None => None
      case Some(place) =>
        if place.value.Obj? then Some((place.value.members, EmitMembers(place.behind, [EndObject])))
        else Some((place.behind, []))
  }

  function VersionIn(v: Json): Option<nat> {
    match v
    case Scalar(number) => VersionOf(Value(number))
    case _ => None
  }

  /** What recursion over the tree makes of the desired members. */
  function ExpectedFrom(ms: Members, after: seq<Token>, components: Option<seq<string>>, limit: nat)
    : (Status, seq<Property>)
  {
    match Locate(ms, VERSION)
    case None => (NotSuccessful, [])
    case Some(place) =>
      match VersionIn(place.value)
      case None => (NotSuccessful, [])
      case Some(version) =>
        var r := RootCalls(ms, components, version, limit, [EndObject] + after);
        (if r.ok then Success else NotSuccessful, r.calls)
  }

  /** ... and of a document. */
  function Expected(doc: Json, isPartial: bool, components: Option<seq<string>>, limit: nat): (Status, seq<Property>) {
    match Subject(doc, isPartial)
    case None => (NotSuccessful, [])
    case Some((ms, after)) => ExpectedFrom(ms, after, components, limit)
  }

  // ---------- what a walk shows first ----------

  /** What is seen of a walk until its first callback: that callback, or the walk's end. */
  datatype Verdict = Speaks | Ends | Fails {

    function Then(next: Verdict): Verdict {
      if Ends? then next else this
    }
  }

  function First(r: Report): Verdict {
    if r.calls != [] then Speaks else if r.ok then Ends else Fails
  }

  /** What a component's members call for first. */
  function DueVerdict(ms: Members, limit: nat): Verdict {
    match ms
    case NoMembers => Ends
    case Members(name, value, rest) =>
      if |name| > limit then Fails
      else if name == COMPONENT_TYPE || name == VERSION then DueVerdict(rest, limit)
      else Speaks
  }

  /** What the walk over the component shows first. */
  function VisitVerdict(ms: Members, limit: nat): Verdict {
    match ms
    case NoMembers => Ends
    case Members(name, value, rest) =>
      if |name| > limit then Fails
      else if name != COMPONENT_TYPE && name != VERSION then Speaks
      else VisitVerdict(if value.Obj? then value.members else rest, limit)
  }

  /** The members that walk leaves unread inside the component, if it ends there. */
  function LeftInside(ms: Members, limit: nat): (left: Option<Members>)
    ensures left.Some? ==> left.value < ms
  {
    match ms
    case NoMembers => None
    case Members(name, value, rest) =>
      if |name| > limit then None
      else if value.Obj? && (name == COMPONENT_TYPE || name == VERSION) then
        var left := LeftInside(value.members, limit);
        if left.Some? then left else Some(rest)
      else LeftInside(rest, limit)
  }

  /** What the desired members call for first. */
  function RootDueVerdict(ms: Members, components: Option<seq<string>>, limit: nat): Verdict {
    match ms
    case NoMembers => Ends
    case Members(name, value, rest) =>
      if |name| > limit then Fails
      else if name == VERSION then RootDueVerdict(rest, components, limit)
      else if value.Obj? && InModel(name, components) then
        DueVerdict(value.members, limit).Then(RootDueVerdict(rest, components, limit))
      else Speaks
  }

  /** What the walk over the root shows first. */
  function RootVerdict(ms: Members, components: Option<seq<string>>, limit: nat): Verdict {
    match ms
    case NoMembers => Ends
    case Members(name, value, rest) =>
      if |name| > limit then Fails
      else if name == VERSION then
        RootVerdict(if value.Obj? then value.members else rest, components, limit)
      else if value.Obj? && InModel(name, components) then
        var left := LeftInside(value.members, limit);
        var next := if left.Some? then left.value else rest;
        VisitVerdict(value.members, limit).Then(RootVerdict(next, components, limit))
      else Speaks
  }

  lemma {:induction false} DueVerdictIsFirst(component: string, ms: Members, version: nat, limit: nat, tail: seq<Token>)
    ensures First(ComponentCalls(component, ms, version, limit, tail)) == DueVerdict(ms, limit)
  {
    match ms
    case NoMembers =>
    case Members(name, value, rest) => DueVerdictIsFirst(component, rest, version, limit, tail);
  }

  lemma {:induction false} VisitVerdictIsFirst(component: string, ms: Members, version: nat, limit: nat,
    after: seq<Token>)
    ensures var v := Actual(component, ms, version, limit, after);
      && First(v.report) == VisitVerdict(ms, limit)
      && LeftInside(ms, limit) == if v.inside then Some(v.left) else None
  {
    match ms
    case NoMembers =>
    case Members(name, value, rest) =>
      VisitVerdictIsFirst(component, rest, version, limit, after);
      if value.Obj? {
        VisitVerdictIsFirst(component, value.members, version, limit, EmitMembers(rest, [EndObject] + after));
      }
  }

  lemma {:induction false} RootDueVerdictIsFirst(ms: Members, components: Option<seq<string>>, version: nat, limit: nat,
    tail: seq<Token>)
    ensures First(RootCalls(ms, components, version, limit, tail)) == RootDueVerdict(ms, components, limit)
  {
    match ms
    case NoMembers =>
    case Members(name, value, rest) =>
      RootDueVerdictIsFirst(rest, components, version, limit, tail);
      if value.Obj? {
        DueVerdictIsFirst(name, value.members, version, limit, [EndObject] + EmitMembers(rest, tail));
      }
  }

  lemma {:induction false} RootVerdictIsFirst(ms: Members, components: Option<seq<string>>, version: nat, limit: nat,
    after: seq<Token>)
    ensures var w := ActualRoot(ms, components, version, limit, after);
      First(Report(w.ok, w.calls)) == RootVerdict(ms, components, limit)
    decreases ms
  {
    hide Actual, VisitVerdict, LeftInside, Emit, EmitMembers, InModel;
    match ms
    case NoMembers =>
    case Members(name, value, rest) =>
      var behind := EmitMembers(rest, [EndObject] + after);
      RootVerdictIsFirst(rest, components, version, limit, after);
      if value.Obj? {
        RootVerdictIsFirst(value.members, components, version, limit, behind);
        var v := Actual(name, value.members, version, limit, behind);
        VisitVerdictIsFirst(name, value.members, version, limit, behind);
        if v.inside {
          RootVerdictIsFirst(v.left, components, version, limit, v.behind);
        }
      }
  }

  // ---------- where the readers of callbacks stand ----------

  ghost predicate Between(calls: seq<Property>, low: nat, high: nat) {
    forall p :: p in calls ==> low < |p.reader| < high
  }

  /** The callbacks for members have readers that stand among those members. */
  lemma {:induction false} ComponentCallsBetween(component: string, ms: Members, version: nat, limit: nat,
    tail: seq<Token>)
    ensures Between(ComponentCalls(component, ms, version, limit, tail).calls, |tail|, |EmitMembers(ms, tail)|)
  {
    match ms
    case NoMembers =>
    case Members(name, value, rest) => ComponentCallsBetween(component, rest, version, limit, tail);
  }

  lemma {:induction false} RootCallsBetween(ms: Members, components: Option<seq<string>>, version: nat, limit: nat,
    tail: seq<Token>)
    ensures Between(RootCalls(ms, components, version, limit, tail).calls, |tail|, |EmitMembers(ms, tail)|)
  {
    match ms
    case NoMembers =>
    case Members(name, value, rest) =>
      RootCallsBetween(rest, components, version, limit, tail);
      if value.Obj? {
        var behind := EmitMembers(rest, tail);
        ComponentCallsBetween(name, value.members, version, limit, [EndObject] + behind);
      }
  }

  lemma {:induction false} ActualBetween(component: string, ms: Members, version: nat, limit: nat, after: seq<Token>)
    ensures var v := Actual(component, ms, version, limit, after);
      var all := EmitMembers(ms, [EndObject] + after);
      && Between(v.report.calls, |after| + 1, |all|)
      && (v.inside ==> |EmitMembers(v.left, [EndObject] + v.behind)| < |all|)
  {
    match ms
    case NoMembers =>
    case Members(name, value, rest) =>
      ActualBetween(component, rest, version, limit, after);
      assert |EmitMembers(rest, [EndObject] + after)| < |EmitMembers(ms, [EndObject] + after)| - 1;
      if value.Obj? {
        ActualBetween(component, value.members, version, limit, EmitMembers(rest, [EndObject] + after));
      }
  }

  lemma {:induction false} ActualRootBetween(ms: Members, components: Option<seq<string>>, version: nat, limit: nat,
    after: seq<Token>)
    ensures Between(ActualRoot(ms, components, version, limit, after).calls,
        |after| + 1, |EmitMembers(ms, [EndObject] + after)|)
    decreases ms
  {
    hide Actual;
    match ms
    case NoMembers =>
    case Members(name, value, rest) =>
      var behind := EmitMembers(rest, [EndObject] + after);
      ActualRootBetween(rest, components, version, limit, after);
      if value.Obj? {
        ActualRootBetween(value.members, components, version, limit, behind);
        var v := Actual(name, value.members, version, limit, behind);
        ActualBetween(name, value.members, version, limit, behind);
        if v.inside {
          ActualRootBetween(v.left, components, version, limit, v.behind);
        }
      }
  }

  ghost predicate Apart(a: seq<Property>, b: seq<Property>) {
    forall p, q :: p in a && q in b ==> p != q
  }

  /** Members read as root properties are never reported as a component's would be. */
  lemma {:induction false} RootIsApart(component: string, ms: Members, components: Option<seq<string>>, version: nat,
    limit: nat, after: seq<Token>)
    ensures Apart(ActualRoot(ms, components, version, limit, after).calls,
        ComponentCalls(component, ms, version, limit, [EndObject] + after).calls)
  {
    hide Actual;
    match ms
    case NoMembers =>
    case Members(name, value, rest) =>
      var tail := [EndObject] + after;
      var behind := EmitMembers(rest, tail);
      RootIsApart(component, rest, components, version, limit, after);
      ComponentCallsBetween(component, rest, version, limit, tail);
      ActualRootBetween(rest, components, version, limit, after);
      if value.Obj? {
        ActualRootBetween(value.members, components, version, limit, behind);
        var v := Actual(name, value.members, version, limit, behind);
        ActualBetween(name, value.members, version, limit, behind);
        if v.inside {
          ActualRootBetween(v.left, components, version, limit, v.behind);
        }
      }
  }

  // ---------- when the parse gives what is expected ----------

  /** Both show the same, and it is no callback. */
  predicate Alike(shown: Verdict, due: Verdict) {
    shown == due && shown != Speaks
  }

  /** When the walk reports what the desired members call for: up to an object under a
      reserved name it does, and from there on only if no callback is made and none is due. */
  predicate Agrees(ms: Members, components: Option<seq<string>>, limit: nat)
    decreases ms, 0
  {
    match ms
    case NoMembers => true
    case Members(name, value, rest) =>
      if |name| > limit then true
      else if value.Obj? && name == VERSION then
        Alike(RootVerdict(value.members, components, limit), RootDueVerdict(rest, components, limit))
      else if value.Obj? && InModel(name, components) then AgreesInside(value.members, rest, components, limit)
      else Agrees(rest, components, limit)
  }

  /** ... and when it does from the members `ms` of a component on, with the desired members
      `behind` to follow. */
  predicate AgreesInside(ms: Members, behind: Members, components: Option<seq<string>>, limit: nat)
    decreases behind, 1, ms
  {
    match ms
    case NoMembers => Agrees(behind, components, limit)
    case Members(name, value, rest) =>
      if |name| > limit then true
      else if value.Obj? && (name == COMPONENT_TYPE || name == VERSION) then
        var left := LeftInside(value.members, limit);
        var next := if left.Some? then left.value else rest;
        Alike(VisitVerdict(value.members, limit).Then(RootVerdict(next, components, limit)),
          DueVerdict(rest, limit).Then(RootDueVerdict(behind, components, limit)))
      else AgreesInside(rest, behind, components, limit)
  }

  /** A document without objects under reserved names is one on which the walk is right. */
  lemma {:induction false} CleanAgrees(ms: Members, components: Option<seq<string>>, limit: nat)
    requires Clean(ms, components)
    ensures Agrees(ms, components, limit)
    decreases ms, 0
  {
    match ms
    case NoMembers =>
    case Members(name, value, rest) =>
      CleanAgrees(rest, components, limit);
      if value.Obj? && InModel(name, components) {
        CleanAgreesInside(value.members, rest, components, limit);
      }
  }

  lemma {:induction false} CleanAgreesInside(ms: Members, behind: Members, components: Option<seq<string>>, limit: nat)
    requires CleanComponent(ms) && Clean(behind, components)
    ensures AgreesInside(ms, behind, components, limit)
    decreases behind, 1, ms
  {
    match ms
    case NoMembers => CleanAgrees(behind, components, limit);
    case Members(name, value, rest) => CleanAgreesInside(rest, behind, components, limit);
  }

  predicate Same(w: Walk, due: Report) {
    w.ok == due.ok && w.calls == due.calls
  }

  lemma SameAfter(w: Walk, due: Report, calls: seq<Property>)
    ensures Same(w.After(calls), due.After(calls)) <==> Same(w, due)
  {
    assert (calls + w.calls)[|calls|..] == w.calls && (calls + due.calls)[|calls|..] == due.calls;
  }

  /** Reports that have no callback in common are the same only if they have none. */
  lemma ApartIsAlike(w: Walk, due: Report)
    requires Apart(w.calls, due.calls)
    ensures Same(w, due) <==> Alike(First(Report(w.ok, w.calls)), First(due))
  {
    if w.calls != [] && due.calls != [] {
      assert w.calls[0] in w.calls && due.calls[0] in due.calls;
    }
  }

  /** What the walk does from a visit to a component on ... */
  function Onward(v: Visited, behind: Members, components: Option<seq<string>>, version: nat, limit: nat,
    after: seq<Token>): Walk
  {
    if !v.report.ok then AsWalk(v.report, [])
    else if v.inside then ActualRoot(v.left, components, version, limit, v.behind).After(v.report.calls)
    else ActualRoot(behind, components, version, limit, after).After(v.report.calls)
  }

  /** ... and what is due. */
  function DueOnward(inner: Report, behind: Members, components: Option<seq<string>>, version: nat, limit: nat,
    tail: seq<Token>): Report
  {
    if inner.ok then RootCalls(behind, components, version, limit, tail).After(inner.calls) else inner
  }

  lemma OnwardAfter(v: Visited, inner: Report, call: Property, behind: Members, components: Option<seq<string>>,
    version: nat, limit: nat, after: seq<Token>, tail: seq<Token>)
    ensures Same(Onward(v.After([call]), behind, components, version, limit, after),
        DueOnward(inner.After([call]), behind, components, version, limit, tail)) <==>
      Same(Onward(v, behind, components, version, limit, after),
        DueOnward(inner, behind, components, version, limit, tail))
  {
    hide ActualRoot, RootCalls;
    var w := Onward(v, behind, components, version, limit, after);
    var due := DueOnward(inner, behind, components, version, limit, tail);
    SameAfter(w, due, [call]);
    assert Onward(v.After([call]), behind, components, version, limit, after).calls == w.After([call]).calls;
    assert DueOnward(inner.After([call]), behind, components, version, limit, tail).calls == due.After([call]).calls;
  }

  lemma OnwardVerdict(component: string, ms: Members, behind: Members, components: Option<seq<string>>, version: nat,
    limit: nat, inner: seq<Token>, after: seq<Token>)
    ensures var w := Onward(Actual(component, ms, version, limit, inner), behind, components, version, limit, after);
      var left := LeftInside(ms, limit);
      var next := if left.Some? then left.value else behind;
      First(Report(w.ok, w.calls)) == VisitVerdict(ms, limit).Then(RootVerdict(next, components, limit))
  {
    hide Actual, ActualRoot, VisitVerdict, LeftInside, RootVerdict;
    var v := Actual(component, ms, version, limit, inner);
    VisitVerdictIsFirst(component, ms, version, limit, inner);
    RootVerdictIsFirst(behind, components, version, limit, after);
    if v.inside {
      RootVerdictIsFirst(v.left, components, version, limit, v.behind);
    }
  }

  lemma DueOnwardVerdict(component: string, ms: Members, behind: Members, components: Option<seq<string>>, version: nat,
    limit: nat, inner: seq<Token>, tail: seq<Token>)
    ensures var due := DueOnward(ComponentCalls(component, ms, version, limit, inner), behind, components, version,
        limit, tail);
      First(due) == DueVerdict(ms, limit).Then(RootDueVerdict(behind, components, limit))
  {
    hide ComponentCalls, RootCalls, DueVerdict, RootDueVerdict;
    DueVerdictIsFirst(component, ms, version, limit, inner);
    RootDueVerdictIsFirst(behind, components, version, limit, tail);
  }

  /** From an object `x` under a reserved name of a component on, no callback is one that is due. */
  lemma OnwardIsApart(component: string, x: Members, rest: Members, behind: Members, components: Option<seq<string>>,
    version: nat, limit: nat, after: seq<Token>)
    ensures
      var inner := EmitMembers(behind, [EndObject] + after);
      var v := Actual(component, x, version, limit, EmitMembers(rest, [EndObject] + inner));
      var calls := ComponentCalls(component, rest, version, limit, [EndObject] + inner);
      Apart(Onward(v, rest, components, version, limit, inner).calls,
        DueOnward(calls, behind, components, version, limit, [EndObject] + after).calls)
  {
    hide Actual, ActualRoot, ComponentCalls, RootCalls, EmitMembers;
    var inner := EmitMembers(behind, [EndObject] + after);
    var tokens := EmitMembers(rest, [EndObject] + inner);
    var v := Actual(component, x, version, limit, tokens);
    ActualBetween(component, x, version, limit, tokens);
    ComponentCallsBetween(component, rest, version, limit, [EndObject] + inner);
    RootCallsBetween(behind, components, version, limit, [EndObject] + after);
    if v.inside {
      ActualRootBetween(v.left, components, version, limit, v.behind);
    } else {
      ActualRootBetween(rest, components, version, limit, inner);
      RootIsApart(component, rest, components, version, limit, inner);
    }
  }

  lemma {:induction false} AgreesInsideExactly(component: string, ms: Members, behind: Members,
    components: Option<seq<string>>, version: nat, limit: nat, after: seq<Token>)
    requires InModel(component, components)
    ensures
      var inner := EmitMembers(behind, [EndObject] + after);
      var v := Actual(component, ms, version, limit, inner);
      var calls := ComponentCalls(component, ms, version, limit, [EndObject] + inner);
      Same(Onward(v, behind, components, version, limit, after),
        DueOnward(calls, behind, components, version, limit, [EndObject] + after)) <==>
      AgreesInside(ms, behind, components, limit)
    decreases behind, 1, ms
  {
    var tail := [EndObject] + after;
    var inner := EmitMembers(behind, tail);
    match ms
    case NoMembers =>
      AgreesExactly(behind, components, version, limit, after);
      SameAfter(ActualRoot(behind, components, version, limit, after),
        RootCalls(behind, components, version, limit, tail), []);
    case Members(name, value, rest) =>
      hide ActualRoot, RootCalls, EmitMembers;
      if |name| <= limit {
        var calls := ComponentCalls(component, rest, version, limit, [EndObject] + inner);
        var v := Actual(component, rest, version, limit, inner);
        var tokens := EmitMembers(rest, [EndObject] + inner);
        if name != COMPONENT_TYPE && name != VERSION {
          AgreesInsideExactly(component, rest, behind, components, version, limit, after);
          OnwardAfter(v, calls, Property(Some(component), name, Emit(value, tokens), version), behind, components,
            version, limit, after, tail);
        } else if value.Obj? {
          var x := Actual(component, value.members, version, limit, tokens);
          OnwardIsApart(component, value.members, rest, behind, components, version, limit, after);
          OnwardVerdict(component, value.members, rest, components, version, limit, tokens, inner);
          DueOnwardVerdict(component, rest, behind, components, version, limit, [EndObject] + inner, tail);
          ApartIsAlike(Onward(x, rest, components, version, limit, inner),
            DueOnward(calls, behind, components, version, limit, tail));
        } else {
          AgreesInsideExactly(component, rest, behind, components, version, limit, after);
        }
      }
  }

  lemma {:induction false} AgreesExactly(ms: Members, components: Option<seq<string>>, version: nat, limit: nat,
    after: seq<Token>)
    ensures Same(ActualRoot(ms, components, version, limit, after),
        RootCalls(ms, components, version, limit, [EndObject] + after)) <==>
      Agrees(ms, components, limit)
    decreases ms, 0
  {
    match ms
    case NoMembers =>
    case Members(name, value, rest) =>
      var tail := [EndObject] + after;
      var behind := EmitMembers(rest, tail);
      if |name| <= limit {
        hide Actual, ComponentCalls, EmitMembers;
        var w := ActualRoot(rest, components, version, limit, after);
        var due := RootCalls(rest, components, version, limit, tail);
        if value.Obj? && name == VERSION {
          var x := ActualRoot(value.members, components, version, limit, behind);
          ActualRootBetween(value.members, components, version, limit, behind);
          RootCallsBetween(rest, components, version, limit, tail);
          RootVerdictIsFirst(value.members, components, version, limit, behind);
          RootDueVerdictIsFirst(rest, components, version, limit, tail);
          ApartIsAlike(x, due);
        } else if name == VERSION {
          AgreesExactly(rest, components, version, limit, after);
        } else if value.Obj? && InModel(name, components) {
          AgreesInsideExactly(name, value.members, rest, components, version, limit, after);
        } else {
          AgreesExactly(rest, components, version, limit, after);
          SameAfter(w, due, [Property(None, name, Emit(value, behind), version)]);
        }
      }
  }

  // ---------- the whole document ----------

  predicate HasVersion(ms: Members) {
    var place := Locate(ms, VERSION);
    place.Some? && VersionIn(place.value.value).Some?
  }

  lemma FromMembers(ms: Members, after: seq<Token>, components: Option<seq<string>>, limit: nat)
    ensures
      var w := From(EmitMembers(ms, [EndObject] + after), components, limit);
      w == ExpectedFrom(ms, after, components, limit) <==> (HasVersion(ms) ==> Agrees(ms, components, limit))
  {
    hide Root, ActualRoot, MoveTo, RootCalls, Agrees;
    MoveFinds(ms, after, VERSION);
    if HasVersion(ms) {
      var version := VersionIn(Locate(ms, VERSION).value.value).value;
      RootIsActual(ms, after, components, version, limit);
      AgreesExactly(ms, components, version, limit, after);
    }
  }

  /** Starting on the value of a name that holds no object is starting behind it. */
  lemma FromBehind(v: Json, tail: seq<Token>, components: Option<seq<string>>, limit: nat)
    requires !v.Obj?
    ensures From(Emit(v, tail)[1..], components, limit) == From(tail, components, limit)
  {
    MoveOver(v, tail, VERSION);
    forall version: nat
      ensures Root(Emit(v, tail)[1..], components, version, limit) == Root(tail, components, version, limit)
    {
      RootValue(v, tail, components, version, limit);
    }
  }

  /** A search that starts on a document that is no object finds nothing. */
  lemma NothingIn(doc: Json, name: string)
    requires !doc.Obj?
    ensures MoveTo(Tokens(doc)[1..], name) == Missing
  {
    MoveOver(doc, [], name);
  }

  lemma FromNothing(doc: Json, components: Option<seq<string>>, limit: nat)
    requires !doc.Obj?
    ensures From(Tokens(doc)[1..], components, limit) == (NotSuccessful, [])
  {
    NothingIn(doc, VERSION);
  }

  /** A parse is about the subject of its document, from its first member on. */
  lemma ParseIsFrom(doc: Json, isPartial: bool, components: Option<seq<string>>, limit: nat)
    ensures Parse(Tokens(doc), isPartial, components, limit) ==
      match Subject(doc, isPartial)
      case None => (NotSuccessful, [])
      case Some((ms, after)) => From(EmitMembers(ms, [EndObject] + after), components, limit)
  {
    hide From, MoveTo;
    match doc
    case Obj(members) =>
      assert [EndObject] + [] == [EndObject];
      assert Tokens(doc)[1..] == EmitMembers(members, [EndObject]);
      if !isPartial {
        MoveFinds(members, [], DESIRED);
        if place: Place :| Locate(members, DESIRED) == Some(place) {
          var behind := EmitMembers(place.behind, [EndObject]);
          if place.value.Obj? {
            assert Emit(place.value, behind)[1..] == EmitMembers(place.value.members, [EndObject] + behind);
          } else {
            FromBehind(place.value, behind, components, limit);
          }
        }
      }
    case _ =>
      NothingIn(doc, DESIRED);
      FromNothing(doc, components, limit);
  }

  /** For every document: the parse of its tokens returns the status, and makes the callbacks
      in the order, that recursion over the tree gives, if and only if the walk agrees with
      the tree on the desired members; without a version it always does. */
  lemma ParseExactly(doc: Json, isPartial: bool, components: Option<seq<string>>, limit: nat)
    ensures Parse(Tokens(doc), isPartial, components, limit) == Expected(doc, isPartial, components, limit) <==>
      var subject := Subject(doc, isPartial);
      (subject.Some? && HasVersion(subject.value.0) ==> Agrees(subject.value.0, components, limit))
  {
    hide From, ExpectedFrom, HasVersion, Agrees, Parse, Subject;
    ParseIsFrom(doc, isPartial, components, limit);
    var subject := Subject(doc, isPartial);
    if subject.Some? {
      FromMembers(subject.value.0, subject.value.1, components, limit);
    }
  }

  /** In particular for every document whose reserved names hold no objects. */
  lemma ParseIsExpected(doc: Json, isPartial: bool, components: Option<seq<string>>, limit: nat)
    requires var subject := Subject(doc, isPartial); subject.Some? ==> Clean(subject.value.0, components)
    ensures Parse(Tokens(doc), isPartial, components, limit) == Expected(doc, isPartial, components, limit)
  {
    hide Parse, Expected, HasVersion, Agrees, Clean;
    ParseExactly(doc, isPartial, components, limit);
    var subject := Subject(doc, isPartial);
    if subject.Some? {
      CleanAgrees(subject.value.0, components, limit);
    }
  }

  // ---------- the version ----------

  ghost predicate AllOf(calls: seq<Property>, version: nat) {
    forall p :: p in calls ==> p.version == version
  }

  lemma {:induction false} VisitCarries(component: string, rest: seq<Token>, version: nat, limit: nat)
    ensures AllOf(Visit(component, rest, version, limit).calls, version)
    decreases |rest|
  {
    var turn := VisitTurn(component, rest, version, limit);
    if !turn.over {
      VisitCarries(component, turn.walk.rest, version, limit);
    }
  }

  lemma {:induction false} RootCarries(rest: seq<Token>, components: Option<seq<string>>, version: nat, limit: nat)
    ensures AllOf(Root(rest, components, version, limit).calls, version)
    decreases |rest|
  {
    var turn := RootTurn(rest, components, version, limit);
    RootTurnCarries(rest, components, version, limit);
    if !turn.over {
      hide RootTurn;
      RootCarries(turn.walk.rest, components, version, limit);
    }
  }

  lemma RootTurnCarries(rest: seq<Token>, components: Option<seq<string>>, version: nat, limit: nat)
    ensures AllOf(RootTurn(rest, components, version, limit).walk.calls, version)
  {
    hide Visit;
    if 2 <= |rest| && rest[0].Name? {
      VisitCarries(rest[0].name, rest[2..], version, limit);
    }
  }

  /** The first "$version" among the desired members, if it is a number. */
  function VersionNumber(ms: Members): Option<int> {
    match Locate(ms, "$version")
    case Some(Place(Scalar(number), _)) => number
    case _ => None
  }

  /** For every document: each callback carries the number that stands under "$version" in the
      desired members, a negative one as an unsigned 32-bit word; without such a number in the
      range of 32 bits there are no callbacks and the parse is not successful. */
  lemma VersionIsTheDocuments(doc: Json, isPartial: bool, components: Option<seq<string>>, limit: nat)
    ensures
      var (status, calls) := Parse(Tokens(doc), isPartial, components, limit);
      var subject := Subject(doc, isPartial);
      match (if subject == None then None else VersionNumber(subject.value.0))
      case None => status == NotSuccessful && calls == []
      case Some(n) =>
        if 0 <= n < 0x8000_0000 then AllOf(calls, n)
        else if -0x8000_0000 <= n < 0 then AllOf(calls, n + 0x1_0000_0000)
        else status == NotSuccessful && calls == []
  {
    hide Parse, Subject, Root, MoveTo;
    ParseIsFrom(doc, isPartial, components, limit);
    var subject := Subject(doc, isPartial);
    if subject.Some? {
      var (ms, after) := subject.value;
      var rest := EmitMembers(ms, [EndObject] + after);
      MoveFinds(ms, after, VERSION);
      forall version: nat
        ensures AllOf(Root(rest, components, version, limit).calls, version)
      {
        RootCarries(rest, components, version, limit);
      }
    }
  }

  // ---------- an example ----------

  /** The component of {"desired": {"temp": 1, "thermostat": {"__t": "c", "max": 5},
      "$version": 7}}, its desired members, and the document. */
  const THERMOSTAT: Members := Members("__t", Scalar(None), Members("max", Scalar(Some(5)), NoMembers))
  const DESIRED_MEMBERS: Members :=
    Members("temp", Scalar(Some(1)),
      Members("thermostat", Obj(THERMOSTAT), Members("$version", Scalar(Some(7)), NoMembers)))
  const EXAMPLE: Json := Obj(Members("desired", Obj(DESIRED_MEMBERS), NoMembers))

  lemma ThermostatCalls(limit: nat, tail: seq<Token>)
    requires 10 <= limit
    ensures ComponentCalls("thermostat", THERMOSTAT, 7, limit, tail) ==
      Report(true, [Property(Some("thermostat"), "max", [Value(Some(5))] + tail, 7)])
  {
    assert "max" != COMPONENT_TYPE && "max" != VERSION && "__t" == COMPONENT_TYPE;
    var rest := THERMOSTAT.rest;
    assert ComponentCalls("thermostat", rest, 7, limit, tail) ==
      Report(true, [Property(Some("thermostat"), "max", [Value(Some(5))] + tail, 7)]);
  }

  predicate Reports(p: Property, component: Option<string>, name: string, value: int, version: nat) {
    && p.component == component && p.name == name && p.version == version
    && p.reader != [] && p.reader[0] == Value(Some(value))
  }

  /** With the thermostat in the model: "temp" is reported for the root, "max" for the
      thermostat, both with version 7 and at their values. */
  lemma ExampleCalls(limit: nat)
    requires 10 <= limit
    ensures
      var (status, calls) := Parse(Tokens(EXAMPLE), false, Some(["thermostat"]), limit);
      && status == Success && |calls| == 2
      && Reports(calls[0], None, "temp", 1, 7) && Reports(calls[1], Some("thermostat"), "max", 5, 7)
  {
    hide Parse, Tokens, ComponentCalls, Clean, Emit, EmitMembers;
    var components := Some(["thermostat"]);
    assert "temp" != VERSION && "thermostat" != VERSION && "temp" != "thermostat" && "desired" == DESIRED;
    ExampleIsClean(components);
    ParseIsExpected(EXAMPLE, false, components, limit);
    var after := EmitMembers(NoMembers, [EndObject]);
    assert Subject(EXAMPLE, false) == Some((DESIRED_MEMBERS, after));
    ExampleRoot(components, limit, [EndObject] + after);
  }

  lemma ExampleIsClean(components: Option<seq<string>>)
    ensures Clean(DESIRED_MEMBERS, components)
  {
    assert CleanComponent(THERMOSTAT);
    assert "thermostat" != VERSION;
    assert Clean(DESIRED_MEMBERS.rest.rest, components);
    assert Clean(DESIRED_MEMBERS.rest, components);
  }

  lemma ExampleRoot(components: Option<seq<string>>, limit: nat, tail: seq<Token>)
    requires 10 <= limit && components == Some(["thermostat"])
    ensures
      var r := RootCalls(DESIRED_MEMBERS, components, 7, limit, tail);
      && r.ok && |r.calls| == 2
      && Reports(r.calls[0], None, "temp", 1, 7) && Reports(r.calls[1], Some("thermostat"), "max", 5, 7)
    ensures Locate(DESIRED_MEMBERS, VERSION) == Some(Place(Scalar(Some(7)), NoMembers))
  {
    var m2 := DESIRED_MEMBERS.rest;
    var m3 := m2.rest;
    assert "temp" != VERSION && "thermostat" != VERSION && "$version" == VERSION;
    ThermostatCalls(limit, [EndObject] + EmitMembers(m3, tail));
    assert RootCalls(m3, components, 7, limit, tail) == Report(true, []);
  }
}
