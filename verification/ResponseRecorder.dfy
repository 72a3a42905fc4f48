/** The recorder object of responsecapture.go. */
module ResponseRecorders {
  import opened Wrappers
  import opened Headers
  import opened Recorders

  class ResponseRecorder {
    const sniff: Sniffer
    var code: int
    var headerMap: Header
    var body: Bytes
    var wroteHeader: bool
    var snapHeader: Option<Header>
    var result: Option<Response>

    function Abstract(): Recorder
      reads this
    {
      Recorder(code, headerMap, body, wroteHeader, snapHeader, result)
    }

    // NewRecorder
    constructor (sniff: Sniffer)
      ensures Abstract() == FRESH && this.sniff == sniff
    {
      this.sniff := sniff;
      code, headerMap, body, wroteHeader := 200, map[], [], false;
      snapHeader, result := None, None;
    }

    // A change to the map that Header returns.
    method EditHeader(e: Edit)
      modifies `headerMap
      ensures headerMap == ApplyEdit(old(headerMap), e)
    {
      match e {
        case SetValue(k, v) => headerMap := Set(headerMap, k, v);
        case AddValue(k, v) => headerMap := Add(headerMap, k, v);
        case DelKey(k) => headerMap := Del(headerMap, k);
        case Put(k, vs) => headerMap := headerMap[k := vs];
      }
    }

    // ok is false when the call panics; then nothing has changed.
    method WriteHeader(status: int) returns (ok: bool)
      modifies this
      ensures ok == DoWriteHeader(old(Abstract()), status).Some?
      ensures Abstract() == if ok then DoWriteHeader(old(Abstract()), status).value else old(Abstract())
    {
      if wroteHeader {
        return true;
      }
      if !ValidCode(status) {
        return false;
      }
      code := status;
      wroteHeader := true;
      snapHeader := Some(headerMap);
      return true;
    }

    // The internal writeHeader: data is the beginning of the body.
    method ImplyHeader(data: Bytes)
      modifies this
      ensures Abstract() ==
        if old(wroteHeader) then old(Abstract())
        else
          var h := WithType(old(headerMap), data, sniff);
          Recorder(200, h, old(body), true, Some(h), old(result))
    {
      if wroteHeader {
        return;
      }
      var hasType := "Content-Type" in headerMap;
      var hasTE := Get(headerMap, "Transfer-Encoding") != "";
      if !hasType && !hasTE {
        headerMap := Set(headerMap, "Content-Type", sniff(Head(data)));
      }
      var ok := WriteHeader(200);
    }

    // Write and WriteString
    method Write(data: Bytes)
      modifies this
      ensures Abstract() == DoWrite(old(Abstract()), data, sniff)
    {
      ImplyHeader(data);
      body := body + data;
    }

    method Result() returns (response: Response)
      modifies `snapHeader, `result
      ensures Abstract() == DoResult(old(Abstract()))
      ensures response == ResultOf(old(Abstract()))
    {
      if result.Some? {
        return result.value;
      }
      if snapHeader.None? {
        snapHeader := Some(headerMap);
      }
      response := Response(if code == 0 then 200 else code, snapHeader.value, body);
      result := Some(response);
    }

    method WriteHeadersTo(w: ResponseRecorder)
      requires w != this
      modifies `snapHeader, `result, w`headerMap
      ensures Abstract() == DoResult(old(Abstract()))
      ensures w.headerMap == old(w.headerMap) + FirstValues(ResultOf(old(Abstract())).header)
    {
      var response := Result();
      SetFirstValues(response.header, w);
    }

    // WriteTo a recorder: its own body is sent, not that of the memoised result.
    method WriteTo(w: ResponseRecorder) returns (ok: bool)
      requires w != this
      modifies `snapHeader, `result, w
      ensures Abstract() == DoResult(old(Abstract()))
      ensures var sent := ResultOf(old(Abstract())).(body := old(body));
              var forwarded := Forward(sent, old(w.Abstract()), w.sniff);
              && ok == forwarded.Some?
              && (ok ==> w.Abstract() == forwarded.value)
    {
      WriteHeadersTo(w);
      var response := Result();
      ok := w.WriteHeader(response.status);
      if ok {
        w.Write(body);
      }
    }
  }

  // The loop over a header map; the order of the keys is left open.
  method SetFirstValues(h: Header, w: ResponseRecorder)
    modifies w`headerMap
    ensures w.headerMap == old(w.headerMap) + FirstValues(h)
  {
    var todo := h.Keys;
    ghost var done: set<string> := {};
    assert w.headerMap == Onto(w.headerMap, h, {});
    while todo != {}
      invariant done == h.Keys - todo && todo <= h.Keys
      invariant w.headerMap == Onto(old(w.headerMap), h, done)
    {
      var key :| key in todo;
      OntoStep(old(w.headerMap), h, done, key);
      w.headerMap := Set(w.headerMap, key, Get(h, key));
      todo, done := todo - {key}, done + {key};
    }
    assert done == h.Keys;
    AllFirstValues(old(w.headerMap), h);
  }

  ghost function CanonicalOf(keys: set<string>): set<string> {
    set k | k in keys :: Canonical(k)
  }

  // The canonical forms of the keys handled so far and their values, on top of base.
  ghost function Onto(base: Header, h: Header, done: set<string>): Header {
    Over(base, c => Get(h, c), CanonicalOf(done))
  }

  ghost function Over(base: Header, value: string -> string, keys: set<string>): Header {
    base + map c | c in keys :: [value(c)]
  }

  lemma OverStep(base: Header, value: string -> string, keys: set<string>, c: string)
    ensures Over(base, value, keys + {c}) == Over(base, value, keys)[c := [value(c)]]
  {
  }

  lemma OntoStep(base: Header, h: Header, done: set<string>, key: string)
    ensures Onto(base, h, done + {key}) == Set(Onto(base, h, done), key, Get(h, key))
  {
    CanonicalIdempotent(key);
    assert CanonicalOf(done + {key}) == CanonicalOf(done) + {Canonical(key)};
    OverStep(base, c => Get(h, c), CanonicalOf(done), Canonical(key));
  }

  lemma AllFirstValues(base: Header, h: Header)
    ensures Onto(base, h, h.Keys) == base + FirstValues(h)
  {
    assert CanonicalOf(h.Keys) == CanonicalKeys(h);
  }
}
