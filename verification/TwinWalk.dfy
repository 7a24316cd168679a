/** The twin-document walk of nx_azure_iot_pnp_helpers.c: loops over tokens that must report
    what recursion over the JSON tree would. */
module TwinWalk {
  import opened Options
  import opened JsonTokens

  datatype Status = Success | NotFound | NotSuccessful | ReadFailed

  const DESIRED: string := "desired"
  const VERSION: string := "$version"
  const COMPONENT_TYPE: string := "__t"

  /** One callback: the component (none for the root), the property, a copy of the reader
      that stands at the value, and the document's version. */
  datatype Property = Property(component: Option<string>, name: string, reader: seq<Token>, version: nat)

  /** Where the search for a name comes to. */
  datatype Move = Found(current: Token, rest: seq<Token>) | Missing | Broken

  function MoveTo(rest: seq<Token>, name: string): (m: Move)
    decreases |rest|
  {
    if rest == [] then Missing
    else if rest[0] == Name(name) then
      if rest[1..] == [] then Broken else Found(rest[1], rest[2..])
    else if rest[0].BeginObject? then
      match Skip(rest[1..], 1)
      case None => Broken
      case Some(after) => MoveTo(after, name)
    else if rest[0].EndObject? then Missing
    else MoveTo(rest[1..], name)
  }

  /** `sample_json_child_token_move` */
  method ChildTokenMove(reader: Reader, name: string) returns (status: Status)
    modifies reader
    ensures match MoveTo(old(reader.rest), name)
      case Found(current, rest) => status == Success && reader.current == current && reader.rest == rest
      case Missing => status == NotFound
      case Broken => status == NotSuccessful
  {
    while true
      invariant MoveTo(reader.rest, name) == MoveTo(old(reader.rest), name)
      decreases |reader.rest|
    {
      var ok := reader.NextToken();
      if !ok {
        return NotFound;
      }
      if reader.current == Name(name) {
        ok := reader.NextToken();
        if !ok {
          return NotSuccessful;
        }
        return Success;
      } else if reader.current.BeginObject? {
        ok := reader.SkipChildren();
        if !ok {
          return NotSuccessful;
        }
      } else if reader.current.EndObject? {
        return NotFound;
      }
    }
  }

  /** What a walk comes to: its status, the callbacks it made, and what it left unread. */
  datatype Walk = Walk(ok: bool, calls: seq<Property>, rest: seq<Token>) {

    function After(calls: seq<Property>): Walk {
      Walk(ok, calls + this.calls, rest)
    }
  }

  /** One turn of a walk: what it reports, where it leaves the reader, whether it is the last. */
  datatype Turn = Turn(over: bool, walk: Walk) {

    function After(calls: seq<Property>): Turn {
      Turn(over, walk.After(calls))
    }
  }

  /** Skips the children of an object whose begin token is `current`. */
  function Past(current: Token, rest: seq<Token>): (w: Walk)
    ensures |w.rest| <= |rest|
  {
    if !current.BeginObject? then Walk(true, [], rest)
    else match Skip(rest, 1)
      case None => Walk(false, [], [])
      case Some(after) => Walk(true, [], after)
  }

  /** The end of a turn on the token `current`: an object is skipped, an end token is the last. */
  function Finish(current: Token, rest: seq<Token>): (turn: Turn)
    ensures |turn.walk.rest| <= |rest| && (!turn.over ==> turn.walk.ok)
  {
    if current.EndObject? then Turn(true, Walk(true, [], rest))
    else
      var w := Past(current, rest);
      Turn(!w.ok, w)
  }

  /** One turn of the walk over a component. */
  function VisitTurn(component: string, rest: seq<Token>, version: nat, limit: nat): (turn: Turn)
    ensures |turn.walk.rest| <= |rest| && (!turn.over ==> turn.walk.ok && |turn.walk.rest| < |rest|)
  {
    if rest == [] then Turn(true, Walk(true, [], []))
    else if rest[0].Name? then
      if |rest[0].name| > limit || rest[1..] == [] then Turn(true, Walk(false, [], []))
      else if rest[0].name == COMPONENT_TYPE || rest[0].name == VERSION then Turn(false, Walk(true, [], rest[2..]))
      else
        Finish(rest[1], rest[2..]).After([Property(Some(component), rest[0].name, rest[1..], version)])
    else Finish(rest[0], rest[1..])
  }

  /** The walk over a component from the tokens `rest` on. */
  function Visit(component: string, rest: seq<Token>, version: nat, limit: nat): (w: Walk)
    decreases |rest|
    ensures |w.rest| <= |rest|
  {
    var turn := VisitTurn(component, rest, version, limit);
    if turn.over then turn.walk
    else Visit(component, turn.walk.rest, version, limit).After(turn.walk.calls)
  }

  /** One turn of the component loop. */
  method TakeVisitTurn(component: string, reader: Reader, version: nat, limit: nat)
    returns (over: bool, ok: bool, calls: seq<Property>)
    modifies reader
    ensures var turn := VisitTurn(component, old(reader.rest), version, limit);
      && over == turn.over && ok == turn.walk.ok && calls == turn.walk.calls
      && (ok ==> reader.rest == turn.walk.rest)
  {
    calls := [];
    ghost var before := reader.rest;
    var fetched := reader.NextToken();
    if !fetched {
      return true, true, calls;
    }
    if reader.current.Name? {
      var name := reader.current.name;
      if |name| > limit {
        return true, false, calls;
      }
      fetched := reader.NextToken();
      if !fetched {
        return true, false, calls;
      }
      if name == COMPONENT_TYPE {
        return false, true, calls;
      }
      if name == VERSION {
        return false, true, calls;
      }
      calls := [Property(Some(component), name, [reader.current] + reader.rest, version)];
      assert [reader.current] + reader.rest == before[1..];
    }
    over, ok := reader.current.EndObject?, true;
    if reader.current.BeginObject? {
      ok := reader.SkipChildren();
      over := !ok;
    }
  }

  lemma AfterAfter(w: Walk, a: seq<Property>, b: seq<Property>)
    ensures w.After(b).After(a) == w.After(a + b)
  {
    assert a + (b + w.calls) == a + b + w.calls;
  }

  /** `visit_component_properties`; `limit` is the longest name the scratch buffer takes. */
  method VisitComponentProperties(component: string, reader: Reader, version: nat, limit: nat)
    returns (status: Status, calls: seq<Property>)
    modifies reader
    ensures var w := Visit(component, old(reader.rest), version, limit);
      && status == (if w.ok then Success else NotSuccessful) && calls == w.calls
      && (w.ok ==> reader.rest == w.rest)
  {
    hide VisitTurn;
    calls := [];
    var over, ok := false, true;
    while !over
      invariant over ==>
        var w := Visit(component, old(reader.rest), version, limit);
        w.ok == ok && w.calls == calls && (ok ==> reader.rest == w.rest)
      invariant !over ==>
        Visit(component, old(reader.rest), version, limit) ==
        Visit(component, reader.rest, version, limit).After(calls)
      decreases !over, |reader.rest|
    {
      ghost var earlier := calls;
      var more;
      over, ok, more := TakeVisitTurn(component, reader, version, limit);
      calls := calls + more;
      if !over {
        AfterAfter(Visit(component, reader.rest, version, limit), earlier, more);
      }
    }
    status := if ok then Success else NotSuccessful;
  }

  /** `is_component_in_model`; no name is empty. */
  method IsComponentInModel(name: string, components: seq<string>) returns (status: Status, index: nat)
    ensures name == "" ==> status == NotSuccessful
    ensures name != "" ==>
      status == (if name in components then Success else NotFound)
    ensures status == Success ==> index < |components| && components[index] == name && name !in components[..index]
  {
    index := 0;
    if name == "" {
      return NotSuccessful, 0;
    }
    while index < |components|
      invariant index <= |components| && name !in components[..index]
    {
      if name == components[index] {
        return Success, index;
      }
      index := index + 1;
    }
    status := NotFound;
  }

  /** Whether an object under `name` is a component of the model; there may be no model. */
  predicate InModel(name: string, components: Option<seq<string>>) {
    components.Some? && name != "" && name in components.value
  }

  /** One root property whose name and first value token were fetched. */
  function AtRoot(name: string, current: Token, rest: seq<Token>, components: Option<seq<string>>, version: nat,
    limit: nat): (w: Walk)
    ensures |w.rest| <= |rest|
  {
    if current.BeginObject? && InModel(name, components) then Visit(name, rest, version, limit)
    else Past(current, rest).After([Property(None, name, [current] + rest, version)])
  }

  /** The walk over the root properties from the tokens `rest` on. */
  function Root(rest: seq<Token>, components: Option<seq<string>>, version: nat, limit: nat): (w: Walk)
    decreases |rest|
  {
    var turn := RootTurn(rest, components, version, limit);
    if turn.over then turn.walk
    else Root(turn.walk.rest, components, version, limit).After(turn.walk.calls)
  }

  function RootTurn(rest: seq<Token>, components: Option<seq<string>>, version: nat, limit: nat): (turn: Turn)
    ensures !turn.over ==> |turn.walk.rest| < |rest|
  {
    if rest == [] then Turn(true, Walk(true, [], []))
    else if rest[0].Name? then
      if |rest[0].name| > limit || rest[1..] == [] then Turn(true, Walk(false, [], []))
      else if rest[0].name == VERSION then Turn(false, Walk(true, [], rest[2..]))
      else
        var w := AtRoot(rest[0].name, rest[1], rest[2..], components, version, limit);
        Turn(!w.ok, w)
    else Finish(rest[0], rest[1..])
  }

  /** The loop's treatment of one root property. */
  method VisitAtRoot(name: string, reader: Reader, components: Option<seq<string>>, version: nat, limit: nat)
    returns (ok: bool, calls: seq<Property>)
    modifies reader
    ensures var w := AtRoot(name, old(reader.current), old(reader.rest), components, version, limit);
      && ok == w.ok && calls == w.calls && (ok ==> reader.rest == w.rest)
  {
    ok := true;
    var isComponent := false;
    if reader.current.BeginObject? && components.Some? {
      var found, index := IsComponentInModel(name, components.value);
      isComponent := found == Success;
    }
    if isComponent {
      var visited;
      visited, calls := VisitComponentProperties(name, reader, version, limit);
      ok := visited == Success;
    } else {
      calls := [Property(None, name, [reader.current] + reader.rest, version)];
      if reader.current.BeginObject? {
        ok := reader.SkipChildren();
      }
    }
  }

  /** One turn of the main loop. */
  method TakeRootTurn(reader: Reader, components: Option<seq<string>>, version: nat, limit: nat)
    returns (over: bool, ok: bool, calls: seq<Property>)
    modifies reader
    ensures var turn := RootTurn(old(reader.rest), components, version, limit);
      && over == turn.over && ok == turn.walk.ok && calls == turn.walk.calls
      && (!over ==> reader.rest == turn.walk.rest)
  {
    calls := [];
    var fetched := reader.NextToken();
    if !fetched {
      return true, true, calls;
    }
    if reader.current.Name? {
      var name := reader.current.name;
      if |name| > limit {
        return true, false, calls;
      }
      fetched := reader.NextToken();
      if !fetched {
        return true, false, calls;
      }
      if name == VERSION {
        return false, true, calls;
      }
      ok, calls := VisitAtRoot(name, reader, components, version, limit);
      over := !ok;
    } else if reader.current.BeginObject? {
      ok := reader.SkipChildren();
      over := !ok;
    } else {
      over, ok := reader.current.EndObject?, true;
    }
  }

  /** The main loop of `nx_azure_iot_pnp_helper_twin_data_parse`. */
  method VisitRoot(reader: Reader, components: Option<seq<string>>, version: nat, limit: nat)
    returns (status: Status, calls: seq<Property>)
    modifies reader
    ensures var w := Root(old(reader.rest), components, version, limit);
      status == (if w.ok then Success else NotSuccessful) && calls == w.calls
  {
    hide RootTurn;
    calls := [];
    var over, ok := false, true;
    while !over
      invariant over ==>
        Root(old(reader.rest), components, version, limit).(rest := []) == Walk(ok, calls, [])
      invariant !over ==>
        Root(old(reader.rest), components, version, limit) ==
        Root(reader.rest, components, version, limit).After(calls)
      decreases !over, |reader.rest|
    {
      ghost var earlier := calls;
      var more;
      over, ok, more := TakeRootTurn(reader, components, version, limit);
      calls := calls + more;
      if !over {
        AfterAfter(Root(reader.rest, components, version, limit), earlier, more);
      }
    }
    status := if ok then Success else NotSuccessful;
  }

  /** `nx_azure_iot_json_reader_token_int32_get`, with the result read back as a UINT. */
  function VersionOf(token: Token): Option<nat> {
    if token.Value? && token.number.Some? && -0x8000_0000 <= token.number.value < 0x8000_0000 then
      Some(if token.number.value < 0 then token.number.value + 0x1_0000_0000 else token.number.value)
    else None
  }

  /** The parse from the desired properties on: the status and the callbacks. */
  function From(rest: seq<Token>, components: Option<seq<string>>, limit: nat): (Status, seq<Property>) {
    match MoveTo(rest, VERSION)
    case Missing => (NotSuccessful, [])
    case Broken => (NotSuccessful, [])
    case Found(current, _) =>
      match VersionOf(current)
      case None => (NotSuccessful, [])
      case Some(version) =>
        var w := Root(rest, components, version, limit);
        (if w.ok then Success else NotSuccessful, w.calls)
  }

  /** The whole parse. */
  function Parse(tokens: seq<Token>, isPartial: bool, components: Option<seq<string>>, limit: nat)
    : (Status, seq<Property>)
  {
    if tokens == [] then (ReadFailed, [])
    else if isPartial then From(tokens[1..], components, limit)
    else
      match MoveTo(tokens[1..], DESIRED)
      case Missing => (NotSuccessful, [])
      case Broken => (NotSuccessful, [])
      case Found(_, rest) => From(rest, components, limit)
  }

  /** `nx_azure_iot_pnp_helper_twin_data_parse` on a reader that has read nothing yet.  If the
      very first fetch fails, the reader's own status is returned (`ReadFailed`). */
  method TwinDataParse(reader: Reader, isPartial: bool, components: Option<seq<string>>, limit: nat)
    returns (status: Status, calls: seq<Property>)
    modifies reader
    ensures (status, calls) == Parse(old(reader.rest), isPartial, components, limit)
  {
    var ok := reader.NextToken();
    if !ok {
      return ReadFailed, [];
    }
    if !isPartial {
      var moved := ChildTokenMove(reader, DESIRED);
      if moved != Success {
        return NotSuccessful, [];
      }
    }
    var copy := new Reader(reader.current, reader.rest);
    var moved := ChildTokenMove(copy, VERSION);
    if moved != Success {
      return NotSuccessful, [];
    }
    var version := VersionOf(copy.current);
    if version == None {
      return NotSuccessful, [];
    }
    status, calls := VisitRoot(reader, components, version.value, limit);
  }
}
