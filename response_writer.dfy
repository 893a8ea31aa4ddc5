/**
 * The in-memory response sink used to capture the metrics handler's output
 * for the push path: it records the status code, keeps a lazily created
 * header map, and accumulates the body in a string.
 */
module ResponseWriter {
  import opened Wrappers

  newtype byte = x: int | 0 <= x < 256

  /** `http.StatusOK`. */
  const StatusOK: int := 200

  /** `http.Header`: header names to their values, shared by reference. */
  class HttpHeader {
    var values: map<string, seq<string>>

    constructor ()
      ensures values == map[]
    {
      values := map[];
    }
  }

  /** The chunks, one after another. */
  function Flatten(chunks: seq<seq<byte>>): seq<byte>
  {
    if chunks == [] then [] else chunks[0] + Flatten(chunks[1..])
  }

  /** Appending a chunk to the list appends its bytes to the concatenation. */
  lemma {:induction false} FlattenSnoc(chunks: seq<seq<byte>>, p: seq<byte>)
    ensures Flatten(chunks + [p]) == Flatten(chunks) + p
    decreases |chunks|
  {
    if chunks == [] {
      assert Flatten([p]) == p + Flatten([]);
    } else {
      assert (chunks + [p])[1..] == chunks[1..] + [p];
      FlattenSnoc(chunks[1..], p);
    }
  }

  /**
   * `ResponseWriterDelegate`. `Writes` is the history of the `Write` calls,
   * kept for the specification only: the body is always their concatenation.
   */
  class ResponseWriterDelegate {
    var header: HttpHeader?
    var Code: int
    var Context: seq<byte>
    ghost var Writes: seq<seq<byte>>

    ghost predicate Valid()
      reads this`Context, this`Writes
    {
      Context == Flatten(Writes)
    }

    /** The zero value `ResponseWriterDelegate{}`. */
    constructor ()
      ensures Valid()
      ensures header == null && Code == 0 && Context == [] && Writes == []
    {
      header := null;
      Code := 0;
      Context := [];
      Writes := [];
    }

    /**
     * The header map, created on the first call; every later call returns the
     * same map. Nothing else changes.
     */
    method Header() returns (h: HttpHeader)
      requires Valid()
      modifies this`header
      ensures Valid()
      ensures header == h
      ensures old(header) != null ==> h == old(header)
      ensures old(header) == null ==> fresh(h) && h.values == map[]
    {
      if header == null {
        header := new HttpHeader();
      }
      h := header;
    }

    /** Records the status code, overwriting any earlier one. Nothing else changes. */
    method WriteHeader(code: int)
      requires Valid()
      modifies this`Code
      ensures Valid()
      ensures Code == code
    {
      Code := code;
    }

    /**
     * Appends `p` to the body. A status code of 0 (none recorded) becomes
     * 200; a recorded one is kept. Returns the length of the whole body so
     * far, not of `p`, and never an error.
     */
    method Write(p: seq<byte>) returns (n: int, err: Option<string>)
      requires Valid()
      modifies this`Code, this`Context, this`Writes
      ensures Valid()
      ensures Writes == old(Writes) + [p]
      ensures Context == old(Context) + p
      ensures Code == if old(Code) == 0 then StatusOK else old(Code)
      ensures n == |Context| && err == None
    {
      if Code == 0 {
        Code := StatusOK;
      }
      Context := Context + p;
      FlattenSnoc(Writes, p);
      Writes := Writes + [p];
      n, err := |Context|, None;
    }
  }

  /**
   * How the metrics handler reports that it could not build or register its
   * collector: it records an error status and then writes the message. The
   * status survives the write, and the body gains exactly the message.
   */
  method ReportFailure(d: ResponseWriterDelegate, code: int, message: seq<byte>)
    requires d.Valid()
    modifies d
    ensures d.Valid()
    ensures d.Code == if code == 0 then StatusOK else code
    ensures d.Context == old(d.Context) + message
    ensures d.header == old(d.header)
  {
    d.WriteHeader(code);
    var _, _ := d.Write(message);
  }
}
