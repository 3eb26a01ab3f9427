/** The grpc headers of a reply, restored after any edit. */
module Headers {

  /** A header map: each name's values in order, and no name without a value. */
  type HeaderMap = map<string, seq<string>>

  datatype Pair = Pair(name: string, value: string)

  function ValuesOf(headers: HeaderMap, name: string): seq<string> {
    if name in headers then headers[name] else []
  }

  predicate IsProtocol(name: string) {
    "grpc-" <= name
  }

  /** The values recorded for a name, in order. */
  function RecordedFor(protocol: seq<Pair>, name: string): seq<string> {
    if protocol == [] then []
    else (if protocol[0].name == name then [protocol[0].value] else []) + RecordedFor(protocol[1..], name)
  }

  lemma {:induction false} RecordedAppend(a: seq<Pair>, b: seq<Pair>, name: string)
    ensures RecordedFor(a + b, name) == RecordedFor(a, name) + RecordedFor(b, name)
  {
    if a == [] {
      assert a + b == b;
    } else {
      assert (a + b)[1..] == a[1..] + b && (a + b)[0] == a[0];
      RecordedAppend(a[1..], b, name);
      var first := if a[0].name == name then [a[0].value] else [];
      assert first + (RecordedFor(a[1..], name) + RecordedFor(b, name)) ==
        first + RecordedFor(a[1..], name) + RecordedFor(b, name);
    }
  }

  function PairsOf(name: string, values: seq<string>): (pairs: seq<Pair>)
    ensures |pairs| == |values| && forall i | 0 <= i < |pairs| :: pairs[i] == Pair(name, values[i])
  {
    seq(|values|, i requires 0 <= i < |values| => Pair(name, values[i]))
  }

  lemma {:induction false} PairsRecord(name: string, values: seq<string>, other: string)
    ensures RecordedFor(PairsOf(name, values), other) == if name == other then values else []
  {
    if values != [] {
      assert PairsOf(name, values)[1..] == PairsOf(name, values[1..]);
      PairsRecord(name, values[1..], other);
    }
  }

  /** The record of a reply's `grpc-` headers: every one, each name's values in order. */
  predicate Records(protocol: seq<Pair>, headers: HeaderMap) {
    && (forall i | 0 <= i < |protocol| :: IsProtocol(protocol[i].name))
    && (forall name | name in headers && IsProtocol(name) :: RecordedFor(protocol, name) == headers[name])
    && (forall i | 0 <= i < |protocol| :: protocol[i].name in headers)
  }

  method Written(headers: HeaderMap) returns (protocol: seq<Pair>)
    ensures Records(protocol, headers)
  {
    protocol := [];
    var left := headers.Keys;
    while left != {}
      invariant left <= headers.Keys
      invariant forall i | 0 <= i < |protocol| ::
                  IsProtocol(protocol[i].name) && protocol[i].name in headers.Keys - left
      invariant forall name | name in headers && IsProtocol(name) && name !in left ::
                  RecordedFor(protocol, name) == headers[name]
      decreases |left|
    {
      var name :| name in left;
      left := left - {name};
      if IsProtocol(name) {
        var pairs := PairsOf(name, headers[name]);
        OneNameMore(protocol, name, headers[name]);
        protocol := protocol + pairs;
      }
    }
  }

  /** A name not yet recorded, recorded: its values, and every other name's as before. */
  lemma OneNameMore(protocol: seq<Pair>, name: string, values: seq<string>)
    requires forall i | 0 <= i < |protocol| :: protocol[i].name != name
    ensures forall other :: RecordedFor(protocol + PairsOf(name, values), other) ==
                            if other == name then values else RecordedFor(protocol, other)
  {
    hide RecordedFor, PairsOf;
    RecordedNone(protocol, name);
    forall other
      ensures RecordedFor(protocol + PairsOf(name, values), other) ==
                if other == name then values else RecordedFor(protocol, other)
    {
      RecordedAppend(protocol, PairsOf(name, values), other);
      PairsRecord(name, values, other);
      assert RecordedFor(protocol, other) + [] == RecordedFor(protocol, other) && [] + values == values;
    }
  }

  lemma {:induction false} RecordedNone(protocol: seq<Pair>, name: string)
    requires forall i | 0 <= i < |protocol| :: protocol[i].name != name
    ensures RecordedFor(protocol, name) == []
  {
    if protocol != [] {
      RecordedNone(protocol[1..], name);
    }
  }

  // ---- Restoring ----

  /** Every `grpc-` name has the values recorded for it, and every other name the values it has. */
  ghost predicate Restores(protocol: seq<Pair>, edited: HeaderMap, after: HeaderMap) {
    forall name :: ValuesOf(after, name) ==
      if IsProtocol(name) then RecordedFor(protocol, name) else ValuesOf(edited, name)
  }

  function NamesOf(protocol: seq<Pair>): set<string> {
    set i | 0 <= i < |protocol| :: protocol[i].name
  }

  /** The touched names have the values recorded for them, the rest what they had. */
  ghost predicate Appended(protocol: seq<Pair>, touched: set<string>, before: HeaderMap, after: HeaderMap) {
    forall name :: ValuesOf(after, name) ==
      if name in touched then RecordedFor(protocol, name) else ValuesOf(before, name)
  }

  lemma NothingRecorded()
    ensures forall name :: RecordedFor([], name) == []
  {
  }

  lemma AppendedOne(protocol: seq<Pair>, i: nat, touched: set<string>, first: HeaderMap, before: HeaderMap,
      after: HeaderMap)
    requires i < |protocol| && Appended(protocol[..i], touched, first, before)
    requires after == if protocol[i].name in touched then
               before[protocol[i].name := ValuesOf(before, protocol[i].name) + [protocol[i].value]] else before
    ensures Appended(protocol[..i + 1], touched, first, after)
  {
    hide RecordedFor;
    forall name
      ensures ValuesOf(after, name) ==
                if name in touched then RecordedFor(protocol[..i + 1], name) else ValuesOf(first, name)
    {
      RecordedNext(protocol, i, name);
      assert ValuesOf(before, name) ==
        if name in touched then RecordedFor(protocol[..i], name) else ValuesOf(first, name);
    }
  }

  lemma RecordedNext(protocol: seq<Pair>, i: nat, name: string)
    requires i < |protocol|
    ensures RecordedFor(protocol[..i + 1], name) ==
              RecordedFor(protocol[..i], name) + if name == protocol[i].name then [protocol[i].value] else []
  {
    assert protocol[..i + 1] == protocol[..i] + [protocol[i]];
    assert [protocol[i]][1..] == [];
    RecordedAppend(protocol[..i], [protocol[i]], name);
  }

  /** Rewriting the names that differ from the record restores them all. */
  lemma TouchedRestores(protocol: seq<Pair>, edited: HeaderMap, touched: set<string>, cleared: HeaderMap,
      after: HeaderMap)
    requires forall i | 0 <= i < |protocol| :: IsProtocol(protocol[i].name)
    requires var names := (set name | name in edited && IsProtocol(name)) + NamesOf(protocol);
             touched == set name | name in names && ValuesOf(edited, name) != RecordedFor(protocol, name)
    requires cleared == edited - touched && Appended(protocol, touched, cleared, after)
    ensures Restores(protocol, edited, after)
  {
    hide RecordedFor;
    forall name
      ensures ValuesOf(after, name) == if IsProtocol(name) then RecordedFor(protocol, name) else ValuesOf(edited, name)
    {
      if name !in NamesOf(protocol) {
        NotNamed(protocol, name);
      }
      assert name in touched ==> IsProtocol(name);
    }
  }

  lemma NotNamed(protocol: seq<Pair>, name: string)
    requires name !in NamesOf(protocol)
    ensures RecordedFor(protocol, name) == []
  {
    forall i | 0 <= i < |protocol|
      ensures protocol[i].name != name
    {
      assert protocol[i].name in NamesOf(protocol);
    }
    RecordedNone(protocol, name);
  }

  class Reply {
    var headers: HeaderMap

    constructor (headers: HeaderMap)
      ensures this.headers == headers
    {
      this.headers := headers;
    }

    /** Puts the `grpc-` headers back as they were recorded: only the names touched are rewritten. */
    method Screen(protocol: seq<Pair>)
      requires forall i | 0 <= i < |protocol| :: IsProtocol(protocol[i].name)
      modifies this
      ensures Restores(protocol, old(headers), headers)
    {
      var names := (set name | name in headers && IsProtocol(name)) + NamesOf(protocol);
      var touched := set name | name in names && ValuesOf(headers, name) != RecordedFor(protocol, name);
      ghost var edited := headers;
      headers := headers - touched;
      ghost var cleared := headers;
      AppendAll(protocol, touched);
      TouchedRestores(protocol, edited, touched, cleared, headers);
    }

    method AppendAll(protocol: seq<Pair>, touched: set<string>)
      requires forall name | name in touched :: name !in headers
      modifies this
      ensures Appended(protocol, touched, old(headers), headers)
    {
      hide RecordedFor;
      NothingRecorded();
      for i := 0 to |protocol|
        invariant Appended(protocol[..i], touched, old(headers), headers)
      {
        var pair := protocol[i];
        ghost var before := headers;
        if pair.name in touched {
          headers := headers[pair.name := ValuesOf(headers, pair.name) + [pair.value]];
        }
        AppendedOne(protocol, i, touched, old(headers), before, headers);
      }
      assert protocol[..|protocol|] == protocol;
    }
  }

  // ---- What it comes to ----

  /** Whatever was done to a recorded reply's headers, screening gives back exactly its own `grpc-` headers. */
  lemma ScreenedIsAsWritten(written: HeaderMap, protocol: seq<Pair>, edited: HeaderMap, after: HeaderMap, name: string)
    requires Records(protocol, written) && Restores(protocol, edited, after)
    ensures ValuesOf(after, name) ==
            ValuesOf(if |name| >= 5 && name[..5] == "grpc-" then written else edited, name)
  {
    assert IsProtocol(name) <==> |name| >= 5 && name[..5] == "grpc-";
    if IsProtocol(name) && name !in written {
      RecordedNone(protocol, name);
    }
  }

  /** Screening twice is screening once. */
  lemma ScreeningTwiceIsOnce(protocol: seq<Pair>, edited: HeaderMap, once: HeaderMap, twice: HeaderMap)
    requires Restores(protocol, edited, once) && Restores(protocol, once, twice)
    ensures forall name :: ValuesOf(twice, name) == ValuesOf(once, name)
  {
  }
}
