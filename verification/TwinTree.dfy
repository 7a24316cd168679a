/** The twin walk against recursion over the JSON tree. */
module TwinTree {
  import opened Options
  import opened JsonTokens
  import opened TwinWalk

  datatype Place = Place(value: Json, behind: Members)

  /** The first member called `name`, with the members behind it. */
  function Locate(ms: Members, name: string): Option<Place> {
    match ms
    case NoMembers => None
    case Members(n, v, rest) => if n == name then Some(Place(v, rest)) else Locate(rest, name)
  }

  datatype Report = Report(ok: bool, calls: seq<Property>) {

    function After(calls: seq<Property>): Report {
      Report(ok, calls + this.calls)
    }
  }

  /** What a component's members call for: one callback per property but the two reserved
      ones, up to the first name that does not fit; `tail` is the text behind the members. */
  function ComponentCalls(component: string, ms: Members, version: nat, limit: nat, tail: seq<Token>): Report {
    match ms
    case NoMembers => Report(true, [])
    case Members(name, value, rest) =>
      if |name| > limit then Report(false, [])
      else
        var more := ComponentCalls(component, rest, version, limit, tail);
        if name == COMPONENT_TYPE || name == VERSION then more
        else more.After([Property(Some(component), name, Emit(value, EmitMembers(rest, tail)), version)])
  }

  /** What the desired members call for: one callback per root property but the version,
      and for an object under a component's name what its members call for. */
  function RootCalls(ms: Members, components: Option<seq<string>>, version: nat, limit: nat, tail: seq<Token>): Report {
    match ms
    case NoMembers => Report(true, [])
    case Members(name, value, rest) =>
      if |name| > limit then Report(false, [])
      else
        var more := RootCalls(rest, components, version, limit, tail);
        var behind := EmitMembers(rest, tail);
        if name == VERSION then more
        else if value.Obj? && InModel(name, components) then
          var inner := ComponentCalls(name, value.members, version, limit, [EndObject] + behind);
          if inner.ok then more.After(inner.calls) else inner
        else more.After([Property(None, name, Emit(value, behind), version)])
  }

  /** A callback carries the document's version, never reports a version or a component's
      type, and names only components of the model. */
  predicate Proper(p: Property, components: Option<seq<string>>, version: nat, limit: nat) {
    && p.version == version && p.name != VERSION && |p.name| <= limit
    && (p.component.Some? ==> InModel(p.component.value, components) && p.name != COMPONENT_TYPE)
  }

  lemma {:induction false} ComponentCallsAreProper(component: string, ms: Members, components: Option<seq<string>>,
    version: nat, limit: nat, tail: seq<Token>)
    requires InModel(component, components)
    ensures var r := ComponentCalls(component, ms, version, limit, tail);
      forall p :: p in r.calls ==> p.component == Some(component) && Proper(p, components, version, limit)
  {
    match ms
    case NoMembers =>
    case Members(name, value, rest) => ComponentCallsAreProper(component, rest, components, version, limit, tail);
  }

  lemma {:induction false} RootCallsAreProper(ms: Members, components: Option<seq<string>>, version: nat, limit: nat,
    tail: seq<Token>)
    ensures var r := RootCalls(ms, components, version, limit, tail);
      forall p :: p in r.calls ==> Proper(p, components, version, limit)
  {
    match ms
    case NoMembers =>
    case Members(name, value, rest) =>
      RootCallsAreProper(rest, components, version, limit, tail);
      if value.Obj? && InModel(name, components) {
        ComponentCallsAreProper(name, value.members, components, version, limit,
          [EndObject] + EmitMembers(rest, tail));
      }
  }

  /** No reserved name holds an object. */
  predicate CleanComponent(ms: Members) {
    match ms
    case NoMembers => true
    case Members(name, value, rest) =>
      (value.Obj? ==> name != COMPONENT_TYPE && name != VERSION) && CleanComponent(rest)
  }

  predicate Clean(ms: Members, components: Option<seq<string>>) {
    match ms
    case NoMembers => true
    case Members(name, value, rest) =>
      && (value.Obj? ==> name != VERSION)
      && (value.Obj? && InModel(name, components) ==> CleanComponent(value.members))
      && Clean(rest, components)
  }

  // ---------- searching ----------

  lemma {:induction false} MoveOverItems(items: Items, tail: seq<Token>, name: string)
    ensures MoveTo(EmitItems(items, tail), name) == MoveTo(tail, name)
  {
    match items
    case NoItems =>
    case Items(head, rest) =>
      MoveOverItems(rest, tail, name);
      MoveOver(head, EmitItems(rest, tail), name);
  }

  /** A search passes over whole values. */
  lemma {:induction false} MoveOver(v: Json, tail: seq<Token>, name: string)
    ensures MoveTo(Emit(v, tail), name) == MoveTo(tail, name)
    ensures !v.Obj? ==> MoveTo(Emit(v, tail)[1..], name) == MoveTo(tail, name)
  {
    match v
    case Obj(members) => SkipObject(members, tail);
    case Arr(items) =>
      MoveOverItems(items, [EndArray] + tail, name);
      assert ([EndArray] + tail)[1..] == tail;
      assert Emit(v, tail)[1..] == EmitItems(items, [EndArray] + tail);
    case Scalar(number) => assert Emit(v, tail)[1..] == tail;
  }

  /** A search among the members of an object finds what the tree has. */
  lemma {:induction false} MoveFinds(ms: Members, after: seq<Token>, name: string)
    ensures MoveTo(EmitMembers(ms, [EndObject] + after), name) ==
      match Locate(ms, name)
      case None => Missing
      case Some(place) =>
        var tokens := Emit(place.value, EmitMembers(place.behind, [EndObject] + after));
        Found(tokens[0], tokens[1..])
  {
    match ms
    case NoMembers =>
    case Members(n, v, rest) =>
      var behind := EmitMembers(rest, [EndObject] + after);
      var tokens := EmitMembers(ms, [EndObject] + after);
      assert tokens[1..] == Emit(v, behind);
      if n == name {
        assert tokens[2..] == Emit(v, behind)[1..];
      } else {
        MoveFinds(rest, after, name);
        MoveOver(v, behind, name);
      }
  }

  // ---------- a component ----------

  lemma AfterNothing(w: Walk)
    ensures w.After([]) == w
  {
    assert [] + w.calls == w.calls;
  }

  lemma {:induction false} VisitItems(component: string, items: Items, tail: seq<Token>, version: nat, limit: nat)
    ensures Visit(component, EmitItems(items, tail), version, limit) == Visit(component, tail, version, limit)
  {
    match items
    case NoItems =>
    case Items(head, rest) =>
      VisitItems(component, rest, tail, version, limit);
      VisitValue(component, head, EmitItems(rest, tail), version, limit);
  }

  /** The walk over a component passes over whole values. */
  lemma {:induction false} VisitValue(component: string, v: Json, tail: seq<Token>, version: nat, limit: nat)
    ensures Visit(component, Emit(v, tail), version, limit) == Visit(component, tail, version, limit)
    ensures !v.Obj? ==> Visit(component, Emit(v, tail)[1..], version, limit) == Visit(component, tail, version, limit)
  {
    AfterNothing(Visit(component, tail, version, limit));
    match v
    case Obj(members) =>
      SkipObject(members, tail);
      assert Emit(v, tail)[1..] == EmitMembers(members, [EndObject] + tail);
    case Arr(items) =>
      VisitItems(component, items, [EndArray] + tail, version, limit);
      assert ([EndArray] + tail)[1..] == tail;
      assert Emit(v, tail)[1..] == EmitItems(items, [EndArray] + tail);
    case Scalar(number) => assert Emit(v, tail)[1..] == tail;
  }

  lemma VisitName(component: string, name: string, value: seq<Token>, version: nat, limit: nat)
    requires value != []
    ensures Visit(component, [Name(name)] + value, version, limit) ==
      if |name| > limit then Walk(false, [], [])
      else if name == COMPONENT_TYPE || name == VERSION then Visit(component, value[1..], version, limit)
      else
        var turn := Finish(value[0], value[1..]).After([Property(Some(component), name, value, version)]);
        if turn.over then turn.walk
        else Visit(component, turn.walk.rest, version, limit).After(turn.walk.calls)
  {
    hide Finish;
    var tokens := [Name(name)] + value;
    assert tokens[0] == Name(name) && tokens[1..] == value && tokens[2..] == value[1..];
    AfterNothing(Visit(component, tokens[2..], version, limit));
  }

  /** A member seen by the walk over a component: an object under a reserved name is entered,
      not skipped. */
  lemma VisitMember(component: string, name: string, value: Json, behind: seq<Token>, version: nat, limit: nat)
    ensures Visit(component, [Name(name)] + Emit(value, behind), version, limit) ==
      if |name| > limit then Walk(false, [], [])
      else if name != COMPONENT_TYPE && name != VERSION then
        Visit(component, behind, version, limit).After(
          [Property(Some(component), name, Emit(value, behind), version)])
      else if value.Obj? then Visit(component, EmitMembers(value.members, [EndObject] + behind), version, limit)
      else Visit(component, behind, version, limit)
  {
    hide Visit, Skip;
    VisitName(component, name, Emit(value, behind), version, limit);
    VisitValue(component, value, behind, version, limit);
    if value.Obj? {
      assert Emit(value, behind)[1..] == EmitMembers(value.members, [EndObject] + behind);
      SkipObject(value.members, behind);
    }
  }

  function AsWalk(report: Report, rest: seq<Token>): Walk {
    Walk(report.ok, report.calls, if report.ok then rest else [])
  }

  /** What a walk over a component really does on a tree: its report, and either the members
      that it takes to be behind the component although they are still inside, or none. */
  datatype Visited = Visited(report: Report, inside: bool, left: Members, behind: seq<Token>) {

    function Rest(): seq<Token> {
      if !report.ok then [] else if inside then EmitMembers(left, [EndObject] + behind) else behind
    }

    function After(calls: seq<Property>): Visited {
      this.(report := report.After(calls))
    }
  }

  /** An object under a reserved name is entered, not skipped: its members are taken for the
      component's, and its end for the component's end. */
  function Actual(component: string, ms: Members, version: nat, limit: nat, after: seq<Token>): (v: Visited)
    ensures v.inside ==> v.left < ms && |after| <= |v.behind|
    ensures !v.inside ==> v.behind == after
  {
    match ms
    case NoMembers => Visited(Report(true, []), false, NoMembers, after)
    case Members(name, value, rest) =>
      if |name| > limit then Visited(Report(false, []), false, NoMembers, after)
      else if name == COMPONENT_TYPE || name == VERSION then
        if value.Obj? then
          var v := Actual(component, value.members, version, limit, EmitMembers(rest, [EndObject] + after));
          if v.inside then v else v.(inside := true, left := rest, behind := after)
        else Actual(component, rest, version, limit, after)
      else
        var call := Property(Some(component), name, Emit(value, EmitMembers(rest, [EndObject] + after)), version);
        Actual(component, rest, version, limit, after).After([call])
  }

  /** The token loop over a component does exactly that, on every tree. */
  lemma {:induction false} VisitIsActual(component: string, ms: Members, after: seq<Token>, version: nat, limit: nat)
    ensures var v := Actual(component, ms, version, limit, after);
      Visit(component, EmitMembers(ms, [EndObject] + after), version, limit) == AsWalk(v.report, v.Rest())
  {
    match ms
    case NoMembers => assert ([EndObject] + after)[1..] == after;
    case Members(name, value, rest) =>
      hide Visit;
      var behind := EmitMembers(rest, [EndObject] + after);
      VisitMember(component, name, value, behind, version, limit);
      if |name| <= limit {
        VisitIsActual(component, rest, after, version, limit);
        if value.Obj? {
          VisitIsActual(component, value.members, behind, version, limit);
        }
      }
  }

  // ---------- the root ----------

  lemma {:induction false} RootItems(items: Items, tail: seq<Token>, components: Option<seq<string>>, version: nat,
    limit: nat)
    ensures Root(EmitItems(items, tail), components, version, limit) == Root(tail, components, version, limit)
  {
    match items
    case NoItems =>
    case Items(head, rest) =>
      RootItems(rest, tail, components, version, limit);
      RootValue(head, EmitItems(rest, tail), components, version, limit);
  }

  /** The walk over the root passes over whole values. */
  lemma {:induction false} RootValue(v: Json, tail: seq<Token>, components: Option<seq<string>>, version: nat,
    limit: nat)
    ensures Root(Emit(v, tail), components, version, limit) == Root(tail, components, version, limit)
    ensures !v.Obj? ==>
      Root(Emit(v, tail)[1..], components, version, limit) == Root(tail, components, version, limit)
  {
    AfterNothing(Root(tail, components, version, limit));
    match v
    case Obj(members) =>
      SkipObject(members, tail);
      assert Emit(v, tail)[1..] == EmitMembers(members, [EndObject] + tail);
    case Arr(items) =>
      RootItems(items, [EndArray] + tail, components, version, limit);
      assert ([EndArray] + tail)[1..] == tail;
      assert Emit(v, tail)[1..] == EmitItems(items, [EndArray] + tail);
      AfterNothing(Root(EmitItems(items, [EndArray] + tail), components, version, limit));
    case Scalar(number) => assert Emit(v, tail)[1..] == tail;
  }

  lemma RootName(name: string, value: seq<Token>, components: Option<seq<string>>, version: nat, limit: nat)
    requires value != []
    ensures Root([Name(name)] + value, components, version, limit) ==
      if |name| > limit then Walk(false, [], [])
      else if name == VERSION then Root(value[1..], components, version, limit)
      else
        var w := AtRoot(name, value[0], value[1..], components, version, limit);
        if w.ok then Root(w.rest, components, version, limit).After(w.calls) else w
  {
    hide AtRoot;
    var tokens := [Name(name)] + value;
    assert tokens[0] == Name(name) && tokens[1..] == value && tokens[2..] == value[1..];
    AfterNothing(Root(tokens[2..], components, version, limit));
  }

  /** A member seen by the walk over the root. */
  lemma RootMember(name: string, value: Json, behind: seq<Token>, components: Option<seq<string>>, version: nat,
    limit: nat)
    ensures Root([Name(name)] + Emit(value, behind), components, version, limit) ==
      if |name| > limit then Walk(false, [], [])
      else if value.Obj? && name == VERSION then
        Root(EmitMembers(value.members, [EndObject] + behind), components, version, limit)
      else if name == VERSION then Root(behind, components, version, limit)
      else if value.Obj? && InModel(name, components) then
        var w := Visit(name, EmitMembers(value.members, [EndObject] + behind), version, limit);
        if w.ok then Root(w.rest, components, version, limit).After(w.calls) else w
      else
        Root(behind, components, version, limit).After([Property(None, name, Emit(value, behind), version)])
  {
    hide Root, Visit, Skip;
    var tokens := Emit(value, behind);
    RootName(name, tokens, components, version, limit);
    RootValue(value, behind, components, version, limit);
    assert [tokens[0]] + tokens[1..] == tokens;
    if value.Obj? {
      assert tokens[1..] == EmitMembers(value.members, [EndObject] + behind);
      SkipObject(value.members, behind);
    }
  }

  /** What the walk over the root really does on a tree.  An object called "$version" is
      entered, and its end ends the walk.  Behind a component that was left too early the
      walk goes on inside it, and the component's end ends the walk. */
  function ActualRoot(ms: Members, components: Option<seq<string>>, version: nat, limit: nat, after: seq<Token>)
    : (w: Walk)
    ensures w.ok ==> |after| <= |w.rest|
  {
    match ms
    case NoMembers => Walk(true, [], after)
    case Members(name, value, rest) =>
      var behind := EmitMembers(rest, [EndObject] + after);
      if |name| > limit then Walk(false, [], [])
      else if value.Obj? && name == VERSION then ActualRoot(value.members, components, version, limit, behind)
      else if name == VERSION then ActualRoot(rest, components, version, limit, after)
      else if value.Obj? && InModel(name, components) then
        var v := Actual(name, value.members, version, limit, behind);
        if !v.report.ok then AsWalk(v.report, [])
        else if v.inside then
          ActualRoot(v.left, components, version, limit, v.behind).After(v.report.calls)
        else ActualRoot(rest, components, version, limit, after).After(v.report.calls)
      else
        ActualRoot(rest, components, version, limit, after).After(
          [Property(None, name, Emit(value, behind), version)])
  }

  /** The token loop over the root does exactly that, on every tree. */
  lemma {:induction false} RootIsActual(ms: Members, after: seq<Token>, components: Option<seq<string>>, version: nat,
    limit: nat)
    ensures Root(EmitMembers(ms, [EndObject] + after), components, version, limit) ==
      ActualRoot(ms, components, version, limit, after)
    decreases ms
  {
    match ms
    case NoMembers => assert ([EndObject] + after)[1..] == after;
    case Members(name, value, rest) =>
      hide Root, Visit;
      var behind := EmitMembers(rest, [EndObject] + after);
      RootMember(name, value, behind, components, version, limit);
      if |name| <= limit {
        RootIsActual(rest, after, components, version, limit);
        if value.Obj? && name == VERSION {
          RootIsActual(value.members, behind, components, version, limit);
        } else if value.Obj? && InModel(name, components) {
          VisitIsActual(name, value.members, behind, version, limit);
          var v := Actual(name, value.members, version, limit, behind);
          if v.report.ok && v.inside {
            RootIsActual(v.left, v.behind, components, version, limit);
          }
        }
      }
  }

  // ---------- when that is what the tree calls for ----------

  lemma {:induction false} ActualIsCalls(component: string, ms: Members, after: seq<Token>, version: nat, limit: nat)
    ensures var v := Actual(component, ms, version, limit, after);
      var due := ComponentCalls(component, ms, version, limit, [EndObject] + after);
      && (CleanComponent(ms) ==> v.report == due && !v.inside)
      && (!CleanComponent(ms) && due.ok && v.report.ok ==> v.inside)
  {
    match ms
    case NoMembers =>
    case Members(name, value, rest) => ActualIsCalls(component, rest, after, version, limit);
  }

  /** The token loop over a component makes the callbacks its tree calls for and stops right
      behind it if no reserved name holds an object, and, as long as the names fit, only then. */
  lemma VisitIsComponentCalls(component: string, ms: Members, after: seq<Token>, version: nat, limit: nat)
    ensures var due := ComponentCalls(component, ms, version, limit, [EndObject] + after);
      var w := Visit(component, EmitMembers(ms, [EndObject] + after), version, limit);
      && (CleanComponent(ms) ==> w == AsWalk(due, after))
      && (due.ok ==> (w == AsWalk(due, after) <==> CleanComponent(ms)))
  {
    hide Visit, ComponentCalls, CleanComponent, EmitMembers, Actual;
    VisitIsActual(component, ms, after, version, limit);
    ActualIsCalls(component, ms, after, version, limit);
  }

  lemma {:induction false} ActualRootIsCalls(ms: Members, after: seq<Token>, components: Option<seq<string>>,
    version: nat, limit: nat)
    ensures var w := ActualRoot(ms, components, version, limit, after);
      var due := RootCalls(ms, components, version, limit, [EndObject] + after);
      && (Clean(ms, components) ==> w == AsWalk(due, after))
      && (!Clean(ms, components) && due.ok && w.ok ==> |after| < |w.rest|)
  {
    match ms
    case NoMembers =>
    case Members(name, value, rest) =>
      hide Actual, ComponentCalls, CleanComponent, Emit, EmitMembers;
      var behind := EmitMembers(rest, [EndObject] + after);
      ActualRootIsCalls(rest, after, components, version, limit);
      if value.Obj? {
        ActualIsCalls(name, value.members, behind, version, limit);
      }
  }

  /** The token loop over the root makes the callbacks the tree calls for and stops right
      behind the object if no reserved name holds an object, and, as long as the names fit,
      only then. */
  lemma RootIsRootCalls(ms: Members, after: seq<Token>, components: Option<seq<string>>, version: nat, limit: nat)
    ensures var due := RootCalls(ms, components, version, limit, [EndObject] + after);
      var w := Root(EmitMembers(ms, [EndObject] + after), components, version, limit);
      && (Clean(ms, components) ==> w == AsWalk(due, after))
      && (due.ok ==> (w == AsWalk(due, after) <==> Clean(ms, components)))
  {
    hide Root, RootCalls, Clean, EmitMembers, ActualRoot;
    RootIsActual(ms, after, components, version, limit);
    ActualRootIsCalls(ms, after, components, version, limit);
  }

  /** The commonest way to go wrong: a component whose first member is an object `x` under a
      reserved name.  The properties of `x` are reported as the component's, the remaining
      members `r` of the component as root properties, and the component's end stops the
      walk, so that the members `q` behind the component are never read. */
  lemma ObjectUnderReservedName(component: string, name: string, x: Members, r: Members, q: Members, after: seq<Token>,
    components: Option<seq<string>>, version: nat, limit: nat)
    requires InModel(component, components) && component != VERSION && |component| <= limit
    requires (name == COMPONENT_TYPE || name == VERSION) && |name| <= limit
    requires CleanComponent(x) && Clean(r, components)
    ensures
      var unread := EmitMembers(q, [EndObject] + after);
      var tail := [EndObject] + EmitMembers(r, [EndObject] + unread);
      var inner := ComponentCalls(component, x, version, limit, tail);
      var wrong := RootCalls(r, components, version, limit, [EndObject] + unread);
      Root(EmitMembers(Members(component, Obj(Members(name, Obj(x), r)), q), [EndObject] + after),
        components, version, limit) ==
      if inner.ok then AsWalk(wrong.After(inner.calls), unread) else Walk(false, inner.calls, [])
  {
    hide CleanComponent, Clean, RootCalls, ComponentCalls, Root;
    var unread := EmitMembers(q, [EndObject] + after);
    RootIsActual(Members(component, Obj(Members(name, Obj(x), r)), q), after, components, version, limit);
    ActualIsCalls(component, x, EmitMembers(r, [EndObject] + unread), version, limit);
    ActualRootIsCalls(r, unread, components, version, limit);
  }
}
