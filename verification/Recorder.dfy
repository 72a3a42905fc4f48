/**
 internal/middlewares/responsecapture.go on values. ResponseRecorders.ResponseRecorder is the
 object with this behaviour.
 */
module Recorders {
  import opened Wrappers
  import opened Headers

  newtype byte = b: int | 0 <= b < 256

  type Bytes = seq<byte>

  // http.DetectContentType
  type Sniffer = Bytes -> string

  datatype Response = Response(status: int, header: Header, body: Bytes)

  datatype Recorder = Recorder(
    code: int,
    header: Header,
    body: Bytes,
    wroteHeader: bool,
    snapHeader: Option<Header>,
    result: Option<Response>
  )

  const FRESH := Recorder(200, map[], [], false, None, None)

  // What a handler does with its header map, through the methods of http.Header or directly.
  datatype Edit =
    | SetValue(key: string, value: string)
    | AddValue(key: string, value: string)
    | DelKey(key: string)
    | Put(key: string, values: seq<string>)

  datatype Op = EditHeader(edit: Edit) | WriteHeader(code: int) | Write(data: Bytes) | WriteString(data: Bytes)

  function ApplyEdit(h: Header, e: Edit): Header {
    match e
    case SetValue(k, v) => Set(h, k, v)
    case AddValue(k, v) => Add(h, k, v)
    case DelKey(k) => Del(h, k)
    case Put(k, vs) => h[k := vs]
  }

  predicate SameEntry(g: Header, h: Header, key: string) {
    (key in g <==> key in h) && (key in h ==> g[key] == h[key])
  }

  // What an edit does to the entry under key c.
  lemma EditMeaning(h: Header, e: Edit, c: string)
    ensures var g := ApplyEdit(h, e);
            match e
            case SetValue(k, v) => if c == Canonical(k) then c in g && g[c] == [v] else SameEntry(g, h, c)
            case AddValue(k, v) =>
              if c == Canonical(k) then
                c in g && |g[c]| > 0 && g[c][|g[c]| - 1] == v
                && g[c][..|g[c]| - 1] == if c in h then h[c] else []
              else SameEntry(g, h, c)
            case DelKey(k) => if c == Canonical(k) then c !in g else SameEntry(g, h, c)
            case Put(k, vs) => if c == k then c in g && g[c] == vs else SameEntry(g, h, c)
  {
  }

  // The start of the body that content sniffing looks at.
  function Head(data: Bytes): Bytes {
    if |data| > 512 then data[..512] else data
  }

  predicate ValidCode(code: int) {
    100 <= code <= 999
  }

  // None when checkWriteHeaderCode panics.
  function DoWriteHeader(r: Recorder, code: int): Option<Recorder> {
    if r.wroteHeader then Some(r)
    else if !ValidCode(code) then None
    else Some(r.(code := code, wroteHeader := true, snapHeader := Some(r.header)))
  }

  predicate NeedsType(h: Header) {
    "Content-Type" !in h && Get(h, "Transfer-Encoding") == ""
  }

  function WithType(h: Header, data: Bytes, sniff: Sniffer): Header {
    if NeedsType(h) then Set(h, "Content-Type", sniff(Head(data))) else h
  }

  function DoWrite(r: Recorder, data: Bytes, sniff: Sniffer): Recorder {
    var r1 :=
      if r.wroteHeader then r
      else
        var h := WithType(r.header, data, sniff);
        r.(header := h, code := 200, wroteHeader := true, snapHeader := Some(h));
    r1.(body := r1.body + data)
  }

  function Step(r: Recorder, op: Op, sniff: Sniffer): Option<Recorder> {
    match op
    case EditHeader(e) => Some(r.(header := ApplyEdit(r.header, e)))
    case WriteHeader(code) => DoWriteHeader(r, code)
    case Write(data) => Some(DoWrite(r, data, sniff))
    case WriteString(data) => Some(DoWrite(r, data, sniff))
  }

  function DoResult(r: Recorder): Recorder {
    if r.result.Some? then r
    else
      var h := if r.snapHeader.Some? then r.snapHeader.value else r.header;
      r.(snapHeader := Some(h),
         result := Some(Response(if r.code == 0 then 200 else r.code, h, r.body)))
  }

  function ResultOf(r: Recorder): Response {
    DoResult(r).result.value
  }

  // A handler's calls in order, on recorder r; None when one of them panics.
  function RunOn(r: Recorder, ops: seq<Op>, sniff: Sniffer): Option<Recorder> {
    if ops == [] then Some(r)
    else
      match RunOn(r, ops[..|ops| - 1], sniff)
      case None => None
      case Some(before) => Step(before, ops[|ops| - 1], sniff)
  }

  function Run(ops: seq<Op>, sniff: Sniffer): Option<Recorder> {
    RunOn(FRESH, ops, sniff)
  }

  // ---------- what a handler's calls mean ----------

  // The position of the first call that writes the header, or the end.
  function FirstWriter(ops: seq<Op>): (k: nat)
    ensures k <= |ops|
    ensures forall i | 0 <= i < k :: ops[i].EditHeader?
    ensures k < |ops| ==> !ops[k].EditHeader?
  {
    if ops == [] then 0
    else if !ops[0].EditHeader? then 0
    else
      var k := FirstWriter(ops[1..]);
      assert forall i | 0 < i < |ops| :: ops[i] == ops[1..][i - 1];
      k + 1
  }

  // The header after the edits among the calls.
  function Edited(ops: seq<Op>): Header {
    if ops == [] then map[]
    else
      var h := Edited(ops[..|ops| - 1]);
      if ops[|ops| - 1].EditHeader? then ApplyEdit(h, ops[|ops| - 1].edit) else h
  }

  function DataOf(op: Op): Bytes {
    if op.Write? || op.WriteString? then op.data else []
  }

  function Written(ops: seq<Op>): Bytes {
    if ops == [] then [] else Written(ops[..|ops| - 1]) + DataOf(ops[|ops| - 1])
  }

  // The first call that writes the header asks for a status that does not have three digits.
  predicate Panics(ops: seq<Op>) {
    var k := FirstWriter(ops);
    k < |ops| && ops[k].WriteHeader? && !(100 <= ops[k].code <= 999)
  }

  // The status is the one of the first header-writing call, the header is the one at that call,
  // with a sniffed type if it was a write, and the body is everything written.
  function Meaning(ops: seq<Op>, sniff: Sniffer): Response {
    var k := FirstWriter(ops);
    var h := Edited(ops[..k]);
    if k == |ops| then Response(200, h, []) else Answer(ops[k], h, Written(ops), sniff)
  }

  // What the first header-writing call makes of the header at the time.
  function Answer(op: Op, h: Header, body: Bytes, sniff: Sniffer): Response
    requires !op.EditHeader?
  {
    if op.WriteHeader? then Response(op.code, h, body) else Response(200, Typed(h, op.data, sniff), body)
  }

  // The header of a response that starts with data: the type is the handler's, or left out next to
  // a transfer encoding, or else found in at most 512 bytes.
  function Typed(h: Header, data: Bytes, sniff: Sniffer): Header {
    if "Content-Type" in h || Get(h, "Transfer-Encoding") != "" then h
    else Set(h, "Content-Type", sniff(if |data| < 512 then data else data[..512]))
  }

  lemma TypeAgrees(h: Header, data: Bytes, sniff: Sniffer)
    ensures WithType(h, data, sniff) == Typed(h, data, sniff)
  {
    if |data| == 512 { assert data[..512] == data; }
  }

  lemma {:induction false} FirstWriterSnoc(ops: seq<Op>, op: Op)
    ensures FirstWriter(ops + [op]) ==
            if FirstWriter(ops) == |ops| && op.EditHeader? then |ops| + 1 else FirstWriter(ops)
  {
    if ops != [] {
      assert (ops + [op])[1..] == ops[1..] + [op];
      FirstWriterSnoc(ops[1..], op);
    }
  }

  // What a recorder looks like after calls that did not panic.
  ghost predicate Records(r: Recorder, ops: seq<Op>, sniff: Sniffer) {
    var m := Meaning(ops, sniff);
    && r.code == m.status && r.body == m.body && r.result == None
    && r.wroteHeader == (FirstWriter(ops) < |ops|)
    && (if r.wroteHeader then r.snapHeader == Some(m.header) else r.snapHeader == None && r.header == m.header)
  }

  lemma EditedSnoc(ops: seq<Op>, op: Op)
    ensures Edited(ops + [op]) == if op.EditHeader? then ApplyEdit(Edited(ops), op.edit) else Edited(ops)
    ensures Written(ops + [op]) == Written(ops) + DataOf(op)
  {
    var more := ops + [op];
    assert more[..|more| - 1] == ops;
  }

  lemma SnocSlices(ops: seq<Op>, op: Op, k: nat)
    requires k <= |ops|
    ensures (ops + [op])[..k] == ops[..k] && ops[..|ops|] == ops && (ops + [op])[..|ops| + 1] == ops + [op]
  {
  }

  lemma StepRecords(r: Recorder, ops: seq<Op>, op: Op, sniff: Sniffer)
    requires !Panics(ops) && Records(r, ops, sniff)
    ensures Step(r, op, sniff) == None <==> Panics(ops + [op])
    ensures Step(r, op, sniff).Some? ==> Records(Step(r, op, sniff).value, ops + [op], sniff)
  {
    FirstWriterSnoc(ops, op);
    EditedSnoc(ops, op);
    SnocSlices(ops, op, FirstWriter(ops));
    if FirstWriter(ops) == |ops| { NothingWritten(ops); }
    TypeAgrees(r.header, DataOf(op), sniff);
  }

  lemma {:induction false} NothingWritten(ops: seq<Op>)
    requires forall i | 0 <= i < |ops| :: ops[i].EditHeader?
    ensures Written(ops) == []
  {
    if ops != [] { NothingWritten(ops[..|ops| - 1]); }
  }

  lemma {:induction false} RunRecords(ops: seq<Op>, sniff: Sniffer)
    ensures Run(ops, sniff) == None <==> Panics(ops)
    ensures Run(ops, sniff).Some? ==> Records(Run(ops, sniff).value, ops, sniff)
  {
    if ops != [] {
      var front, op := ops[..|ops| - 1], ops[|ops| - 1];
      assert ops == front + [op];
      RunRecords(front, sniff);
      FirstWriterSnoc(front, op);
      if Run(front, sniff).Some? {
        StepRecords(Run(front, sniff).value, front, op, sniff);
      }
    } else {
      assert ops[..0] == [];
    }
  }

  // A handler panics exactly when its first header-writing call has a bad status, and otherwise
  // Result gives the meaning of its calls.
  lemma RecorderMeaning(ops: seq<Op>, sniff: Sniffer)
    ensures Run(ops, sniff) == None <==> Panics(ops)
    ensures Run(ops, sniff).Some? ==> ResultOf(Run(ops, sniff).value) == Meaning(ops, sniff)
  {
    RunRecords(ops, sniff);
    if Run(ops, sniff).Some? && FirstWriter(ops) < |ops| {
      assert ValidCode(Meaning(ops, sniff).status);
    }
  }

  // When a type is found in the body: only if the first header-writing call is a write, and there is
  // neither a type nor a transfer encoding by then.
  lemma SniffCondition(ops: seq<Op>, sniff: Sniffer)
    requires var k := FirstWriter(ops); k < |ops| && (ops[k].Write? || ops[k].WriteString?)
    ensures Run(ops, sniff).Some?
    ensures var k := FirstWriter(ops);
            var h, data, result := Edited(ops[..k]), ops[k].data, ResultOf(Run(ops, sniff).value).header;
            && ("Content-Type" in h || Get(h, "Transfer-Encoding") != "" ==> result == h)
            && ("Content-Type" !in h && Get(h, "Transfer-Encoding") == "" ==>
                  result == Set(h, "Content-Type", sniff(if |data| < 512 then data else data[..512])))
  {
    RecorderMeaning(ops, sniff);
  }

  // Result is memoised: no sequence of calls after it changes what it returns.
  lemma {:induction false} ResultStays(r: Recorder, ops: seq<Op>, sniff: Sniffer)
    ensures var after := RunOn(DoResult(r), ops, sniff);
            after.Some? ==> after.value.result == DoResult(r).result && ResultOf(after.value) == ResultOf(r)
  {
    if ops != [] { ResultStays(r, ops[..|ops| - 1], sniff); }
  }

  // ---------- forwarding ----------

  // WriteTo into a recorder w, given the response of the recorder that is forwarded.
  function Forward(response: Response, w: Recorder, sniff: Sniffer): Option<Recorder> {
    var w1 := w.(header := w.header + FirstValues(response.header));
    match DoWriteHeader(w1, response.status)
    case None => None
    case Some(w2) => Some(DoWrite(w2, response.body, sniff))
  }

  // What arrives in a fresh recorder.
  function Relayed(response: Response): Response {
    response.(header := FirstValues(response.header))
  }

  lemma ForwardFresh(response: Response, sniff: Sniffer)
    ensures Forward(response, FRESH, sniff).Some? <==> 100 <= response.status <= 999
    ensures ValidCode(response.status) ==>
              ResultOf(Forward(response, FRESH, sniff).value) == Relayed(response)
              && Forward(response, FRESH, sniff).value.body == response.body
  {
    assert map[] + FirstValues(response.header) == FirstValues(response.header);
  }

  // The response has a header field of that name, in whatever spelling.
  predicate Mentions(h: Header, key: string) {
    exists k | k in h :: Canonical(k) == Canonical(key)
  }

  // Forwarding to a writer that may hold something already: header fields are added or replaced by
  // name, the body is appended, and a header that has been written stays.
  lemma ForwardOnto(response: Response, w: Recorder, sniff: Sniffer, key: string)
    ensures Forward(response, w, sniff).Some? <==> w.wroteHeader || 100 <= response.status <= 999
    ensures Forward(response, w, sniff).Some? ==>
              var after := Forward(response, w, sniff).value;
              && after.wroteHeader && after.body == w.body + response.body && after.result == w.result
              && (w.wroteHeader ==> after.code == w.code && after.snapHeader == w.snapHeader)
              && (!w.wroteHeader ==> after.code == response.status && after.snapHeader == Some(after.header))
              && Get(after.header, key) == Get(if Mentions(response.header, key) then response.header else w.header, key)
  {
    FirstValuesShape(response.header, Canonical(key));
    FirstValuesGet(response.header, key);
    CanonicalIdempotent(key);
    if Mentions(response.header, key) {
      assert Canonical(key) in FirstValues(response.header);
    }
  }

  // Forwarding a response through n recorders, each forwarded to the next.
  function Chain(response: Response, n: nat, sniff: Sniffer): Option<Response> {
    if n == 0 then Some(response)
    else
      match Chain(response, n - 1, sniff)
      case None => None
      case Some(r) =>
        match Forward(r, FRESH, sniff)
        case None => None
        case Some(w) => Some(ResultOf(w))
  }

  // What a recorder has passed on, a second one passes on unchanged.
  lemma ForwardRelayed(response: Response, sniff: Sniffer)
    requires ValidCode(response.status)
    ensures Forward(Relayed(response), FRESH, sniff).Some?
    ensures ResultOf(Forward(Relayed(response), FRESH, sniff).value) == Relayed(response)
  {
    ForwardFresh(Relayed(response), sniff);
    FirstValuesIdempotent(response.header);
  }

  // Stacked recorders compose: any number of them passes on what a single one does.
  lemma {:induction false} ChainCollapses(response: Response, n: nat, sniff: Sniffer)
    requires n >= 1 && ValidCode(response.status)
    ensures Chain(response, n, sniff) == Some(Relayed(response))
  {
    if n == 1 {
      assert Chain(response, 0, sniff) == Some(response);
      ForwardFresh(response, sniff);
    } else {
      ChainCollapses(response, n - 1, sniff);
      ForwardRelayed(response, sniff);
    }
  }

  // Status and body survive and so does every header lookup; the header itself survives exactly
  // when it has canonical keys with one value each.
  lemma RelayedKeeps(response: Response, key: string)
    ensures Relayed(response).status == response.status && Relayed(response).body == response.body
    ensures Get(Relayed(response).header, key) == Get(response.header, key)
    ensures Relayed(response) == response <==> SingleValued(response.header)
  {
    FirstValuesGet(response.header, key);
    FirstValuesCondition(response.header);
  }
}
