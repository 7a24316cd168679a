/** JSON values (RFC 8259), their token sequences, and the reader the twin walk uses: a
    cursor that fetches the next token, knows its type, and can skip an object. */
module JsonTokens {
  import opened Options

  /** A scalar matters here only for the integer it may denote. */
  datatype Json = Obj(members: Members) | Arr(items: Items) | Scalar(number: Option<int>)
  datatype Members = NoMembers | Members(name: string, value: Json, rest: Members)
  datatype Items = NoItems | Items(head: Json, rest: Items)

  datatype Token = NoToken | BeginObject | EndObject | BeginArray | EndArray
                 | Name(name: string) | Value(number: Option<int>)

  /** The tokens of a value, followed by `tail`. */
  function Emit(v: Json, tail: seq<Token>): (tokens: seq<Token>)
    ensures |tail| < |tokens|
  {
    match v
    case Obj(members) => [BeginObject] + EmitMembers(members, [EndObject] + tail)
    case Arr(items) => [BeginArray] + EmitItems(items, [EndArray] + tail)
    case Scalar(number) => [Value(number)] + tail
  }

  function EmitMembers(ms: Members, tail: seq<Token>): (tokens: seq<Token>)
    ensures |tail| <= |tokens|
  {
    match ms
    case NoMembers => tail
    case Members(name, value, rest) => [Name(name)] + Emit(value, EmitMembers(rest, tail))
  }

  function EmitItems(items: Items, tail: seq<Token>): (tokens: seq<Token>)
    ensures |tail| <= |tokens|
  {
    match items
    case NoItems => tail
    case Items(head, rest) => Emit(head, EmitItems(rest, tail))
  }

  function Tokens(v: Json): seq<Token> {
    Emit(v, [])
  }

  /** What is left after skipping to the end of the `depth` innermost open brackets. */
  function Skip(rest: seq<Token>, depth: nat): (r: Option<seq<Token>>)
    ensures r.Some? ==> |r.value| <= |rest| && (depth != 0 ==> |r.value| < |rest|)
  {
    if depth == 0 then Some(rest)
    else if rest == [] then None
    else if rest[0].BeginObject? || rest[0].BeginArray? then Skip(rest[1..], depth + 1)
    else if rest[0].EndObject? || rest[0].EndArray? then Skip(rest[1..], depth - 1)
    else Skip(rest[1..], depth)
  }

  /** Skipping passes over whole values. */
  lemma {:induction false} SkipValue(v: Json, tail: seq<Token>, depth: nat)
    requires depth != 0
    ensures Skip(Emit(v, tail), depth) == Skip(tail, depth)
  {
    match v
    case Obj(members) =>
      SkipMembers(members, [EndObject] + tail, depth + 1);
      assert ([EndObject] + tail)[1..] == tail;
      assert Emit(v, tail)[1..] == EmitMembers(members, [EndObject] + tail);
    case Arr(items) =>
      SkipItems(items, [EndArray] + tail, depth + 1);
      assert ([EndArray] + tail)[1..] == tail;
      assert Emit(v, tail)[1..] == EmitItems(items, [EndArray] + tail);
    case Scalar(number) =>
      assert Emit(v, tail)[1..] == tail;
  }

  lemma {:induction false} SkipMembers(ms: Members, tail: seq<Token>, depth: nat)
    requires depth != 0
    ensures Skip(EmitMembers(ms, tail), depth) == Skip(tail, depth)
  {
    match ms
    case NoMembers =>
    case Members(name, value, rest) =>
      SkipMembers(rest, tail, depth);
      SkipValue(value, EmitMembers(rest, tail), depth);
      assert EmitMembers(ms, tail)[1..] == Emit(value, EmitMembers(rest, tail));
  }

  lemma {:induction false} SkipItems(items: Items, tail: seq<Token>, depth: nat)
    requires depth != 0
    ensures Skip(EmitItems(items, tail), depth) == Skip(tail, depth)
  {
    match items
    case NoItems =>
    case Items(head, rest) =>
      SkipItems(rest, tail, depth);
      SkipValue(head, EmitItems(rest, tail), depth);
  }

  /** Skipping the children of an object that was just entered lands behind it. */
  lemma SkipObject(ms: Members, tail: seq<Token>)
    ensures Skip(EmitMembers(ms, [EndObject] + tail), 1) == Some(tail)
  {
    SkipMembers(ms, [EndObject] + tail, 1);
    assert ([EndObject] + tail)[1..] == tail;
  }

  /** `NX_AZURE_IOT_JSON_READER`: the current token and what has not been read. */
  class Reader {
    var current: Token
    var rest: seq<Token>

    constructor (current: Token, rest: seq<Token>)
      ensures this.current == current && this.rest == rest
    {
      this.current, this.rest := current, rest;
    }

    method NextToken() returns (ok: bool)
      modifies this
      ensures ok <==> old(rest) != []
      ensures if ok then current == old(rest)[0] && rest == old(rest)[1..]
              else current == old(current) && rest == []
    {
      if rest == [] {
        return false;
      }
      current, rest := rest[0], rest[1..];
      ok := true;
    }

    /** Moves to the end of the object or array whose begin token is current. */
    method SkipChildren() returns (ok: bool)
      modifies this
      ensures ok <==> Skip(old(rest), 1).Some?
      ensures ok ==> rest == Skip(old(rest), 1).value
    {
      var depth: nat := 1;
      while depth != 0
        invariant Skip(rest, depth) == Skip(old(rest), 1)
        decreases depth != 0, |rest|
      {
        ok := NextToken();
        if !ok {
          return;
        }
        if current.BeginObject? || current.BeginArray? {
          depth := depth + 1;
        } else if current.EndObject? || current.EndArray? {
          depth := depth - 1;
        }
      }
      ok := true;
    }
  }
}
