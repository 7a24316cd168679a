/** es_wifi.c, `AT_RequestReceiveData`: taking the payload out of the module's reply, which
    is stuffing, CR LF, payload, the OK string, stuffing. */
module AtFraming {
  import opened Octets

  const STUFFING: byte := 0x15
  const CR: byte := 0x0D
  const LF: byte := 0x0A

  /** AT_OK_STRING: CR LF 'O' 'K' CR LF '>' ' ' */
  const OK_STRING: seq<byte> := [0x0D, 0x0A, 0x4F, 0x4B, 0x0D, 0x0A, 0x3E, 0x20]
  const OK_LENGTH: nat := 8

  /** ES_WIFI_DATA_SIZE, and what the receive function returns if stuffing never ends. */
  const DATA_SIZE: nat := 2000
  const STUFFING_FOREVER: int := -4

  datatype Answer = Data(bytes: seq<byte>) | ClosedSocket | IoError | ModuleCrash

  /** Where the stuffing from position `i` on ends, looking no further than `limit`. */
  function StuffingEnd(raw: seq<byte>, i: nat, limit: nat): (e: nat)
    requires i <= limit <= |raw|
    ensures i <= e <= limit && (forall k :: i <= k < e ==> raw[k] == STUFFING)
    ensures e < limit ==> raw[e] != STUFFING
    decreases limit - i
  {
    if i < limit && raw[i] == STUFFING then StuffingEnd(raw, i + 1, limit) else i
  }

  /** The length of `s` without the stuffing at its end. */
  function Stripped(s: seq<byte>): (n: nat)
    ensures n <= |s| && (forall k :: n <= k < |s| ==> s[k] == STUFFING)
    ensures n != 0 ==> s[n - 1] != STUFFING
  {
    if s != [] && s[|s| - 1] == STUFFING then Stripped(s[..|s| - 1]) else |s|
  }

  /** The string that starts at `from` in `mem`: up to the first zero. */
  function CString(mem: seq<byte>, from: nat): (s: seq<byte>)
    requires from <= |mem|
    ensures from + |s| <= |mem| && s == mem[from..from + |s|]
    ensures 0 !in s && (from + |s| < |mem| ==> mem[from + |s|] == 0)
    decreases |mem| - from
  {
    if from == |mem| || mem[from] == 0 then [] else [mem[from]] + CString(mem, from + 1)
  }

  /** strstr finds `t` in `s`. */
  predicate Occurs(s: seq<byte>, t: seq<byte>) {
    |t| <= |s| && (s[..|t|] == t || (s != [] && Occurs(s[1..], t)))
  }

  lemma {:induction false} CStringEnds(mem: seq<byte>, from: nat, k: nat)
    requires from + k < |mem| && mem[from + k] == 0
    ensures |CString(mem, from)| <= k
    decreases k
  {
    if k != 0 && mem[from] != 0 {
      CStringEnds(mem, from + 1, k - 1);
    }
  }

  lemma {:induction false} CStringRuns(mem: seq<byte>, from: nat, k: nat)
    requires from + k <= |mem| && forall j :: from <= j < from + k ==> mem[j] != 0
    ensures k <= |CString(mem, from)|
    decreases k
  {
    if k != 0 {
      CStringRuns(mem, from + 1, k - 1);
    }
  }

  /** Single bytes of a slice. */
  lemma At(s: seq<byte>, i: nat, w: seq<byte>, k: nat)
    requires i + |w| <= |s| && s[i..i + |w|] == w && k < |w|
    ensures s[i + k] == w[k]
  {
    assert s[i..i + |w|][k] == s[i + k];
  }

  lemma Adjoin(s: seq<byte>, i: nat, j: nat, k: nat)
    requires i <= j <= k <= |s|
    ensures s[i..k] == s[i..j] + s[j..k]
  {
  }

  /** Equal slices have equal parts. */
  lemma Part(s: seq<byte>, i: nat, w: seq<byte>, x: nat, y: nat)
    requires i + |w| <= |s| && s[i..i + |w|] == w && x <= y <= |w|
    ensures s[i + x..i + y] == w[x..y]
  {
    forall k | 0 <= k < y - x
      ensures s[i + x..i + y][k] == w[x..y][k]
    {
      At(s, i, w, x + k);
    }
  }

  /** The OK string occurs in a string that a zero ends eight bytes on exactly if it is it. */
  lemma OccursInEight(mem: seq<byte>, from: nat)
    requires from + OK_LENGTH < |mem| && mem[from + OK_LENGTH] == 0
    ensures Occurs(CString(mem, from), OK_STRING) <==> mem[from..from + OK_LENGTH] == OK_STRING
  {
    hide CString;
    var s, window := CString(mem, from), mem[from..from + OK_LENGTH];
    CStringEnds(mem, from, OK_LENGTH);
    if window == OK_STRING {
      forall j | from <= j < from + OK_LENGTH
        ensures mem[j] != 0
      {
        At(mem, from, OK_STRING, j - from);
      }
      CStringRuns(mem, from, OK_LENGTH);
    }
    if |s| == OK_LENGTH {
      assert s[..OK_LENGTH] == s == window;
    }
  }

  /** Where the body of a reply starts: behind the stuffing and CR LF, if they are there. */
  function BodyAt(raw: seq<byte>): (r: int)
    ensures r == -1 || 2 <= r <= |raw|
  {
    if |raw| < 2 then -1
    else
      var i := StuffingEnd(raw, 0, |raw| - 2);
      if raw[i] == CR && raw[i + 1] == LF then i + 2 else -1
  }

  /** What the stripped reply of length `n` at `start` is answered with.  Its last eight bytes
      are looked up even if it has fewer; then the bytes before it in memory count. */
  function Answered(mem: seq<byte>, start: nat, n: nat, reqlen: nat): (answer: Answer)
    requires OK_LENGTH <= start + n < |mem| && start + reqlen <= |mem| && n <= DATA_SIZE
    ensures answer.Data? ==> |answer.bytes| <= reqlen
  {
    if mem[start + n - OK_LENGTH..start + n] != OK_STRING then ClosedSocket
    else
      var size := (n - OK_LENGTH) % 0x1_0000;
      Data(mem[start + n := 0][start..start + if size > reqlen then reqlen else size])
  }

  /** What the function answers, given the memory that the receive buffer lies in, from
      `base` on, and the length of the reply. */
  function Unframe(mem: seq<byte>, base: nat, len: int, reqlen: nat): (answer: Answer)
    requires OK_LENGTH <= base && len <= DATA_SIZE && base + DATA_SIZE + 1 + reqlen <= |mem|
    ensures answer.Data? ==> |answer.bytes| <= reqlen
  {
    if len == STUFFING_FOREVER then ModuleCrash
    else if len < 2 then IoError
    else
      var raw := mem[base..base + len];
      var b := BodyAt(raw);
      if b == -1 || len - b < OK_LENGTH then IoError
      else Answered(mem, base + b, Stripped(raw[b..]), reqlen)
  }

  /** The first loop: past the stuffing in front of CR LF. */
  method SkipStuffing(memory: array<byte>, p: nat, len: int) returns (i: nat)
    requires 2 <= len && p + len <= memory.Length
    ensures i == StuffingEnd(memory[p..p + len], 0, len - 2)
  {
    ghost var raw := memory[p..p + len];
    i := 0;
    while i < len - 2 && memory[p + i] == STUFFING
      invariant i <= len - 2 && StuffingEnd(raw, 0, len - 2) == StuffingEnd(raw, i, len - 2)
    {
      i := i + 1;
    }
  }

  lemma StrippedStep(body: seq<byte>, len: nat)
    requires len <= |body|
    ensures Stripped(body[..len]) ==
      if len != 0 && body[len - 1] == STUFFING then Stripped(body[..len - 1]) else len
  {
    if len != 0 {
      assert body[..len][..len - 1] == body[..len - 1];
    }
  }

  /** The second loop: off the stuffing at the end. */
  method StripStuffing(memory: array<byte>, p: nat, length: nat, ghost body: seq<byte>) returns (len: nat)
    requires p + length <= memory.Length && body == memory[p..p + length]
    ensures len == Stripped(body)
  {
    hide Stripped;
    len := length;
    assert body[..len] == body;
    while len != 0 && memory[p + len - 1] == STUFFING
      invariant len <= length && Stripped(body) == Stripped(body[..len])
    {
      StrippedStep(body, len);
      len := len - 1;
    }
    StrippedStep(body, len);
  }

  /** Ends the stripped reply with a zero and looks for the OK string in its last bytes. */
  method Payload(memory: array<byte>, p: nat, len: nat, reqlen: nat) returns (answer: Answer)
    requires OK_LENGTH <= p + len && p + len < memory.Length && p + reqlen <= memory.Length
    requires len <= DATA_SIZE
    modifies memory
    ensures answer == Answered(old(memory[..]), p, len, reqlen)
  {
    hide Occurs, CString;
    ghost var mem := memory[..];
    memory[p + len] := 0;
    assert memory[..] == mem[p + len := 0];
    OccursInEight(memory[..], p + len - OK_LENGTH);
    if Occurs(CString(memory[..], p + len - OK_LENGTH), OK_STRING) {
      var size := (len - OK_LENGTH) % 0x1_0000;
      if size > reqlen {
        size := reqlen;
      }
      return Data(memory[p..p + size]);
    }
    return ClosedSocket;
  }

  /** The start of the reply: where the body is, or -1. */
  method FindBody(memory: array<byte>, p: nat, len: nat, ghost raw: seq<byte>) returns (b: int)
    requires 2 <= len && p + len <= memory.Length && raw == memory[p..p + len]
    ensures b == BodyAt(raw)
  {
    hide StuffingEnd;
    var i := SkipStuffing(memory, p, len);
    var q := p;
    assert raw[i] == memory[p + i] && raw[i + 1] == memory[p + i + 1] && raw[0] == memory[p];
    if memory[p + i] == CR && memory[p + i + 1] == LF {
      q := p + i;
    }
    if memory[q] != CR || memory[q + 1] != LF {
      return -1;
    }
    b := q - p + 2;
  }

  /** `AT_RequestReceiveData`; `sent` says whether sending the command succeeded, `received`
      is what IO_Receive returned. */
  method RequestReceiveData(memory: array<byte>, base: nat, sent: bool, received: int, reqlen: nat)
    returns (answer: Answer)
    requires OK_LENGTH <= base && received <= DATA_SIZE && base + DATA_SIZE + 1 + reqlen <= memory.Length
    modifies memory
    ensures answer == if sent then Unframe(old(memory[..]), base, received, reqlen) else IoError
  {
    hide StuffingEnd, Stripped, BodyAt, Answered;
    if !sent {
      return IoError;
    }
    if received == STUFFING_FOREVER {
      return ModuleCrash;
    }
    if received < 2 {
      return IoError;
    }
    ghost var mem := memory[..];
    ghost var raw := mem[base..base + received];
    var b := FindBody(memory, base, received, raw);
    if b == -1 {
      return IoError;
    }
    var p, len := base + b, received - b;
    if len >= OK_LENGTH {
      len := StripStuffing(memory, p, len, raw[b..]);
      answer := Payload(memory, p, len, reqlen);
    } else {
      answer := IoError;
    }
  }

  // ---------- what the answers mean ----------

  function Stuff(n: nat): (s: seq<byte>)
    ensures |s| == n && forall k :: 0 <= k < n ==> s[k] == STUFFING
  {
    seq(n, _ => STUFFING)
  }

  /** A reply: stuffing, CR LF, `core`, stuffing. */
  function Reply(a: nat, core: seq<byte>, b: nat): seq<byte> {
    Stuff(a) + [CR, LF] + (core + Stuff(b))
  }

  /** A reply with a payload as the module frames it. */
  function Frame(a: nat, payload: seq<byte>, b: nat): seq<byte> {
    Reply(a, payload + OK_STRING, b)
  }

  lemma StuffIs(s: seq<byte>)
    requires forall k :: 0 <= k < |s| ==> s[k] == STUFFING
    ensures s == Stuff(|s|)
  {
  }

  lemma BodyBehind(a: nat, body: seq<byte>)
    ensures BodyAt(Stuff(a) + [CR, LF] + body) == a + 2
  {
    var raw := Stuff(a) + [CR, LF] + body;
    assert raw[a] == CR && raw[a + 1] == LF && CR != STUFFING;
    var e := StuffingEnd(raw, 0, |raw| - 2);
    assert raw[..a] == Stuff(a);
    assert e == a;
  }

  /** The body starts behind stuffing and CR LF exactly if the reply starts with them. */
  lemma BodyExactly(raw: seq<byte>, a: nat)
    ensures BodyAt(raw) == a + 2 <==> a + 2 <= |raw| && raw[..a + 2] == Stuff(a) + [0x0D, 0x0A]
  {
    if a + 2 <= |raw| && raw[..a + 2] == Stuff(a) + [0x0D, 0x0A] {
      BodyBehind(a, raw[a + 2..]);
      assert raw == Stuff(a) + [CR, LF] + raw[a + 2..];
    }
    if BodyAt(raw) == a + 2 {
      BodyFacts(raw);
    }
  }

  /** Which failure is answered: a crash if the module never stops stuffing, an I/O error if no
      body of at least eight bytes arrives, a closed socket if what arrives does not end in the
      OK string. */
  lemma FailsExactly(mem: seq<byte>, base: nat, len: int, reqlen: nat)
    requires OK_LENGTH <= base && len <= DATA_SIZE && base + DATA_SIZE + 1 + reqlen <= |mem|
    ensures
      var answer := Unframe(mem, base, len, reqlen);
      && (answer == ModuleCrash <==> len == -4)
      && (len != -4 ==>
            (answer == IoError <==>
               len < 2 || BodyAt(mem[base..base + len]) == -1 || len - BodyAt(mem[base..base + len]) < 8))
      && (answer == ClosedSocket <==>
            2 <= len &&
            var raw := mem[base..base + len];
            var b := BodyAt(raw);
            b != -1 && 8 <= len - b &&
            var end := base + b + Stripped(raw[b..]);
            mem[end - 8..end] != [0x0D, 0x0A, 0x4F, 0x4B, 0x0D, 0x0A, 0x3E, 0x20])
  {
    hide BodyAt, Stripped;
  }

  /** A frame in bytes: stuffing, CR LF, "hi", CR LF "OK" CR LF "> ", stuffing. */
  lemma FrameExample()
    ensures Frame(1, [0x68, 0x69], 2) ==
      [0x15, 0x0D, 0x0A, 0x68, 0x69, 0x0D, 0x0A, 0x4F, 0x4B, 0x0D, 0x0A, 0x3E, 0x20, 0x15, 0x15]
  {
    assert Stuff(1) == [0x15] && Stuff(2) == [0x15, 0x15];
  }

  /** What does not end in stuffing. */
  predicate Firm(core: seq<byte>) {
    core == [] || core[|core| - 1] != STUFFING
  }

  lemma StrippedOf(core: seq<byte>, b: nat)
    requires Firm(core)
    ensures Stripped(core + Stuff(b)) == |core|
  {
    var body := core + Stuff(b);
    assert core != [] ==> body[|core| - 1] == core[|core| - 1];
    assert body[|core|..] == Stuff(b);
  }

  lemma ReplyParts(a: nat, core: seq<byte>, b: nat)
    requires Firm(core)
    ensures var raw := Reply(a, core, b);
      && |raw| == a + 2 + |core| + b && BodyAt(raw) == a + 2
      && raw[a + 2..] == core + Stuff(b) && Stripped(raw[a + 2..]) == |core|
      && raw[a..a + 2] == [CR, LF] && raw[a + 2..a + 2 + |core|] == core
  {
    hide BodyAt, Stripped;
    BodyBehind(a, core + Stuff(b));
    StrippedOf(core, b);
    var raw := Reply(a, core, b);
    assert raw[a + 2..] == core + Stuff(b);
    assert raw[a + 2..a + 2 + |core|] == (core + Stuff(b))[..|core|] == core;
  }

  lemma FrameParts(a: nat, payload: seq<byte>, b: nat)
    ensures var raw, body := Frame(a, payload, b), payload + OK_STRING;
      && |raw| == a + 2 + |payload| + OK_LENGTH + b
      && BodyAt(raw) == a + 2 && Stripped(raw[a + 2..]) == |payload| + OK_LENGTH
      && raw[a + 2..a + 2 + |payload|] == payload
      && raw[a + 2 + |payload|..a + 2 + |payload| + OK_LENGTH] == OK_STRING
  {
    hide BodyAt, Stripped, Reply;
    var core := payload + OK_STRING;
    ReplyParts(a, core, b);
    Part(Reply(a, core, b), a + 2, core, 0, |payload|);
    Part(Reply(a, core, b), a + 2, core, |payload|, |core|);
    assert core[0..|payload|] == payload && core[|payload|..|core|] == OK_STRING;
  }

  lemma AnsweredPayload(mem: seq<byte>, start: nat, payload: seq<byte>, reqlen: nat)
    requires var n := |payload| + OK_LENGTH; n <= DATA_SIZE && start + n < |mem| && start + reqlen <= |mem|
    requires mem[start..start + |payload|] == payload
    requires mem[start + |payload|..start + |payload| + OK_LENGTH] == OK_STRING
    ensures Answered(mem, start, |payload| + OK_LENGTH, reqlen) ==
      Data(payload[..if |payload| > reqlen then reqlen else |payload|])
  {
    var read := if |payload| > reqlen then reqlen else |payload|;
    var after := mem[start + |payload| + OK_LENGTH := 0];
    forall k | 0 <= k < read
      ensures after[start..start + read][k] == payload[k]
    {
      assert after[start + k] == mem[start + k] == mem[start..start + |payload|][k];
    }
    assert after[start..start + read] == payload[..read];
  }

  /** For every payload, even one that holds stuffing bytes or the OK string: a framed reply
      is answered with exactly the first `reqlen` bytes of the payload, or all of them. */
  lemma FramedIsUnframed(mem: seq<byte>, base: nat, a: nat, payload: seq<byte>, b: nat, reqlen: nat)
    requires OK_LENGTH <= base && base + DATA_SIZE + 1 + reqlen <= |mem|
    requires |Frame(a, payload, b)| <= DATA_SIZE
    requires mem[base..base + |Frame(a, payload, b)|] == Frame(a, payload, b)
    ensures Unframe(mem, base, |Frame(a, payload, b)|, reqlen) ==
      Data(payload[..if |payload| > reqlen then reqlen else |payload|])
  {
    hide BodyAt, Stripped, Answered, Frame, Stuff;
    var raw := Frame(a, payload, b);
    FrameParts(a, payload, b);
    Part(mem, base, raw, a + 2, a + 2 + |payload|);
    Part(mem, base, raw, a + 2 + |payload|, a + 2 + |payload| + OK_LENGTH);
    AnsweredPayload(mem, base + a + 2, payload, reqlen);
  }

  /** The reply carries a payload in its frame. */
  ghost predicate Framed(raw: seq<byte>) {
    exists a: nat, payload: seq<byte>, b: nat {:trigger Frame(a, payload, b)} :: raw == Frame(a, payload, b)
  }

  /** No payload: the first CR LF of the OK string is also the one in front of the body. */
  ghost predicate BareOk(raw: seq<byte>) {
    exists a: nat, b: nat {:trigger Reply(a, OK_STRING[2..], b)} :: 2 <= b && raw == Reply(a, OK_STRING[2..], b)
  }

  /** Nothing but the prompt, right at the start of the buffer, behind memory that happens to
      hold the first half of the OK string. */
  ghost predicate PromptBehindOk(mem: seq<byte>, base: nat, raw: seq<byte>)
    requires 4 <= base <= |mem|
  {
    && mem[base - 4..base] == OK_STRING[..4]
    && exists b: nat {:trigger Reply(0, OK_STRING[6..], b)} :: 6 <= b && raw == Reply(0, OK_STRING[6..], b)
  }

  lemma FramedParts(raw: seq<byte>)
    requires Framed(raw)
    ensures BodyAt(raw) != -1 && Stripped(raw[BodyAt(raw)..]) >= OK_LENGTH
  {
    hide BodyAt, Stripped, Frame;
    var a: nat, payload: seq<byte>, b: nat :| raw == Frame(a, payload, b);
    FrameParts(a, payload, b);
  }

  /** What precedes the body is stuffing and CR LF. */
  lemma BodyFacts(raw: seq<byte>)
    requires BodyAt(raw) != -1
    ensures var b := BodyAt(raw);
      && raw[b - 2] == CR && raw[b - 1] == LF && raw[..b] == Stuff(b - 2) + [CR, LF]
      && (2 < b ==> raw[b - 3] == STUFFING)
  {
  }

  /** Whatever has a body is a reply. */
  lemma IsReply(raw: seq<byte>, b: nat, n: nat)
    requires BodyAt(raw) == b && n == Stripped(raw[b..])
    ensures raw == Reply(b - 2, raw[b..b + n], |raw| - b - n)
  {
    hide BodyAt, Stripped, Stuff;
    BodyFacts(raw);
    var body := raw[b..];
    StuffIs(body[n..]);
    assert body[..n] == raw[b..b + n];
    assert body == body[..n] + body[n..];
    assert raw == raw[..b] + body;
  }

  /** A reply whose stripped body ends in the OK string is framed. */
  lemma EndsInOk(raw: seq<byte>, b: nat, n: nat)
    requires BodyAt(raw) == b && n == Stripped(raw[b..])
    requires OK_LENGTH <= n && raw[b + n - OK_LENGTH..b + n] == OK_STRING
    ensures Framed(raw)
  {
    hide BodyAt, Stripped, Reply;
    IsReply(raw, b, n);
    var core := raw[b..b + n];
    var payload := core[..n - OK_LENGTH];
    assert core[n - OK_LENGTH..] == OK_STRING;
    assert core == payload + OK_STRING;
    assert raw == Frame(b - 2, payload, |raw| - b - n);
  }

  /** Exactly which answers with data are right: those to replies whose stripped body has room
      for the OK string. */
  lemma DataMeans(mem: seq<byte>, base: nat, len: nat, reqlen: nat)
    requires OK_LENGTH <= base && len <= DATA_SIZE && base + DATA_SIZE + 1 + reqlen <= |mem|
    requires Unframe(mem, base, len, reqlen).Data?
    ensures
      var raw := mem[base..base + len];
      && BodyAt(raw) != -1
      && (Framed(raw) <==> OK_LENGTH <= Stripped(raw[BodyAt(raw)..]))
  {
    hide BodyAt, Stripped, Unframe, Framed, Answered;
    DataWindow(mem, base, len, reqlen);
    var raw := mem[base..base + len];
    var b := BodyAt(raw);
    var n := Stripped(raw[b..]);
    if Framed(raw) {
      FramedParts(raw);
    }
    if OK_LENGTH <= n {
      Part(mem, base, raw, b + n - OK_LENGTH, b + n);
      EndsInOk(raw, b, n);
    }
  }

  /** Exactly when there is an answer with data: for a framed reply and for two others, which
      carry no payload. */
  lemma DataExactly(mem: seq<byte>, base: nat, len: nat, reqlen: nat)
    requires OK_LENGTH <= base && len <= DATA_SIZE && base + DATA_SIZE + 1 + reqlen <= |mem|
    ensures
      var raw := mem[base..base + len];
      Unframe(mem, base, len, reqlen).Data? <==> Framed(raw) || BareOk(raw) || PromptBehindOk(mem, base, raw)
  {
    hide BodyAt, Stripped, Unframe, Framed, BareOk, PromptBehindOk, Answered;
    var raw := mem[base..base + len];
    if Framed(raw) {
      FramedIsData(mem, base, raw, reqlen);
    }
    if BareOk(raw) {
      BareOkIsData(mem, base, raw, reqlen);
    }
    if PromptBehindOk(mem, base, raw) {
      PromptIsData(mem, base, raw, reqlen);
    }
    if Unframe(mem, base, len, reqlen).Data? {
      DataMeans(mem, base, len, reqlen);
      DataWindow(mem, base, len, reqlen);
      if !Framed(raw) {
        ShortIsOther(mem, base, raw, BodyAt(raw), Stripped(raw[BodyAt(raw)..]));
      }
    }
  }

  lemma FramedIsData(mem: seq<byte>, base: nat, raw: seq<byte>, reqlen: nat)
    requires OK_LENGTH <= base && |raw| <= DATA_SIZE && base + DATA_SIZE + 1 + reqlen <= |mem|
    requires mem[base..base + |raw|] == raw && Framed(raw)
    ensures Unframe(mem, base, |raw|, reqlen).Data?
  {
    hide Unframe, Frame;
    var a: nat, payload: seq<byte>, b: nat :| raw == Frame(a, payload, b);
    FramedIsUnframed(mem, base, a, payload, b, reqlen);
  }

  lemma BareOkIsData(mem: seq<byte>, base: nat, raw: seq<byte>, reqlen: nat)
    requires OK_LENGTH <= base && |raw| <= DATA_SIZE && base + DATA_SIZE + 1 + reqlen <= |mem|
    requires mem[base..base + |raw|] == raw && BareOk(raw)
    ensures Unframe(mem, base, |raw|, reqlen).Data?
  {
    hide Unframe, Reply;
    var a: nat, b: nat :| 2 <= b && raw == Reply(a, OK_STRING[2..], b);
    BareOkIsMisread(mem, base, a, b, reqlen);
  }

  lemma PromptIsData(mem: seq<byte>, base: nat, raw: seq<byte>, reqlen: nat)
    requires OK_LENGTH <= base && |raw| <= DATA_SIZE && base + DATA_SIZE + 1 + reqlen <= |mem|
    requires mem[base..base + |raw|] == raw && PromptBehindOk(mem, base, raw)
    ensures Unframe(mem, base, |raw|, reqlen).Data?
  {
    hide Unframe, Reply;
    var b: nat :| 6 <= b && raw == Reply(0, OK_STRING[6..], b);
    PromptIsMisread(mem, base, b, reqlen);
  }

  /** An answer with data means that the last eight bytes looked up are the OK string. */
  lemma DataWindow(mem: seq<byte>, base: nat, len: nat, reqlen: nat)
    requires OK_LENGTH <= base && len <= DATA_SIZE && base + DATA_SIZE + 1 + reqlen <= |mem|
    requires Unframe(mem, base, len, reqlen).Data?
    ensures
      var raw := mem[base..base + len];
      var b := BodyAt(raw);
      && 2 <= b && b + OK_LENGTH <= len
      && var end := base + b + Stripped(raw[b..]); mem[end - OK_LENGTH..end] == OK_STRING
  {
    hide BodyAt, Stripped;
  }

  /** A stripped body shorter than the OK string can only end in it if it is six or two
      bytes long. */
  lemma ShortLength(mem: seq<byte>, base: nat, raw: seq<byte>, b: nat, n: nat)
    requires OK_LENGTH <= base && base + |raw| <= |mem| && mem[base..base + |raw|] == raw
    requires 2 <= b && n < OK_LENGTH && b + n <= |raw| && raw[b - 2] == CR && raw[b - 1] == LF
    requires 2 < b ==> raw[b - 3] == STUFFING
    requires mem[base + b + n - OK_LENGTH..base + b + n] == OK_STRING
    ensures n == 6 || (n == 2 && b == 2)
  {
    var from := base + b + n - OK_LENGTH;
    At(mem, base, raw, b - 1);
    At(mem, from, OK_STRING, 7 - n);
    if n == 7 {
      assert false;
    } else {
      At(mem, base, raw, b - 2);
      At(mem, from, OK_STRING, 6 - n);
      if n == 2 && 2 < b {
        At(mem, base, raw, b - 3);
        At(mem, from, OK_STRING, 3);
      }
    }
  }

  lemma ShortWindow(mem: seq<byte>, base: nat, raw: seq<byte>, b: nat, n: nat)
    requires OK_LENGTH <= base && base + |raw| <= |mem| && mem[base..base + |raw|] == raw
    requires 2 <= b && b + n <= |raw| && (n == 6 || (n == 2 && b == 2))
    requires mem[base + b + n - OK_LENGTH..base + b + n] == OK_STRING
    ensures raw[b..b + n] == OK_STRING[OK_LENGTH - n..]
    ensures n == 2 ==> mem[base - 4..base] == OK_STRING[..4]
  {
    var from := base + b + n - OK_LENGTH;
    Part(mem, from, OK_STRING, OK_LENGTH - n, OK_LENGTH);
    Part(mem, base, raw, b, b + n);
    if n == 2 {
      Part(mem, from, OK_STRING, 0, 4);
    }
  }

  /** A reply that is too short to be framed but ends in what looks like the OK string is one
      of the two other kinds. */
  lemma ShortIsOther(mem: seq<byte>, base: nat, raw: seq<byte>, b: nat, n: nat)
    requires OK_LENGTH <= base && base + |raw| <= |mem| && mem[base..base + |raw|] == raw
    requires b + OK_LENGTH <= |raw| && BodyAt(raw) == b && n == Stripped(raw[b..]) < OK_LENGTH
    requires mem[base + b + n - OK_LENGTH..base + b + n] == OK_STRING
    ensures BareOk(raw) || PromptBehindOk(mem, base, raw)
  {
    hide BodyAt, Stripped, Reply, Stuff, BareOk, PromptBehindOk;
    BodyFacts(raw);
    ShortLength(mem, base, raw, b, n);
    ShortWindow(mem, base, raw, b, n);
    IsReply(raw, b, n);
    if n == 6 {
      BareOkIs(raw, b - 2, |raw| - b - n);
    } else {
      PromptIs(mem, base, raw, |raw| - b - n);
    }
  }

  lemma BareOkIs(raw: seq<byte>, a: nat, b: nat)
    requires 2 <= b && raw == Reply(a, OK_STRING[2..], b)
    ensures BareOk(raw)
  {
  }

  lemma PromptIs(mem: seq<byte>, base: nat, raw: seq<byte>, b: nat)
    requires 4 <= base <= |mem| && mem[base - 4..base] == OK_STRING[..4]
    requires 6 <= b && raw == Reply(0, OK_STRING[6..], b)
    ensures PromptBehindOk(mem, base, raw)
  {
  }

  /** A reply that carries no payload at all is answered with as many bytes as were asked for
      (below 65534). */
  lemma BareOkIsMisread(mem: seq<byte>, base: nat, a: nat, b: nat, reqlen: nat)
    requires OK_LENGTH <= base && base + DATA_SIZE + 1 + reqlen <= |mem| && 2 <= b
    requires var raw := Reply(a, OK_STRING[2..], b); |raw| <= DATA_SIZE && mem[base..base + |raw|] == raw
    ensures var answer := Unframe(mem, base, |Reply(a, OK_STRING[2..], b)|, reqlen);
      answer.Data? && |answer.bytes| == if reqlen < 0xFFFE then reqlen else 0xFFFE
  {
    hide BodyAt, Stripped, Reply, Stuff;
    var raw := Reply(a, OK_STRING[2..], b);
    assert [CR, LF] + OK_STRING[2..] == OK_STRING;
    ReplyParts(a, OK_STRING[2..], b);
    Adjoin(raw, a, a + 2, a + OK_LENGTH);
    Part(mem, base, raw, a, a + OK_LENGTH);
  }

  /** So is the bare prompt, if the memory in front of the buffer fits. */
  lemma PromptIsMisread(mem: seq<byte>, base: nat, b: nat, reqlen: nat)
    requires OK_LENGTH <= base && base + DATA_SIZE + 1 + reqlen <= |mem| && 6 <= b
    requires var raw := Reply(0, OK_STRING[6..], b); |raw| <= DATA_SIZE && mem[base..base + |raw|] == raw
    requires mem[base - 4..base] == OK_STRING[..4]
    ensures var answer := Unframe(mem, base, |Reply(0, OK_STRING[6..], b)|, reqlen);
      answer.Data? && |answer.bytes| == if reqlen < 0xFFFA then reqlen else 0xFFFA
  {
    hide BodyAt, Stripped, Reply, Stuff;
    var raw := Reply(0, OK_STRING[6..], b);
    assert OK_STRING[..4] + ([CR, LF] + OK_STRING[6..]) == OK_STRING;
    ReplyParts(0, OK_STRING[6..], b);
    Adjoin(raw, 0, 2, 4);
    Part(mem, base, raw, 0, 4);
    Adjoin(mem, base - 4, base, base + 4);
  }
}
