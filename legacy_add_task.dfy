/** The stand-alone add-task page: its form entries are plain strings, the
    dependency field is a comma-separated list of ids, and every number goes
    through `parseInt(_, 10)` before it is sent. A `NaN` is sent as `null`
    (`None`). */
module LegacyAddTask {
  import opened Wrappers
  import opened Text

  /** `Object.fromEntries(new FormData(taskForm))`. */
  datatype Entries = Entries(number: string, title: string, dueDate: string,
                             estimatedHours: string, importance: string, dependencies: string)

  /** The JSON body posted to the task list endpoint. */
  datatype Payload = Payload(number: Option<int>, title: string, dueDate: string,
                             estimatedHours: Option<int>, importance: Option<int>, dependencies: seq<int>)

  /** `(id) => parseInt(id.trim(), 10)`. */
  function ParseId(piece: string): Option<int> {
    ParseInt(Trim(piece))
  }

  /** `xs.map(f)`. */
  function Map<A, B>(f: A -> B, xs: seq<A>): (ys: seq<B>)
    ensures |ys| == |xs|
  {
    if xs == [] then [] else [f(xs[0])] + Map(f, xs[1..])
  }

  /** The pieces of the dependency field, each trimmed and parsed. */
  function ParsePieces(pieces: seq<string>): (parsed: seq<Option<int>>)
    ensures |parsed| == |pieces|
  {
    Map(ParseId, pieces)
  }

  /** `.filter((id) => !isNaN(id))`: the numbers, in their order. */
  function KeepNumbers(parsed: seq<Option<int>>): (ids: seq<int>)
    ensures |ids| <= |parsed|
    ensures forall x :: x in ids <==> Some(x) in parsed
  {
    if parsed == [] then []
    else
      var rest := KeepNumbers(parsed[1..]);
      assert parsed == [parsed[0]] + parsed[1..];
      if parsed[0].Some? then [parsed[0].value] + rest else rest
  }

  /** The dependency list sent for the text of the dependency field. */
  function ParseDependencies(s: string): (ids: seq<int>)
    ensures |ids| <= CountChar(s, ',') + 1
    ensures forall x :: x in ids <==> Some(x) in ParsePieces(Split(s, ','))
  {
    KeepNumbers(ParsePieces(Split(s, ',')))
  }

  /** The submit payload: three numbers through `parseInt`, title and due date
      passed through untouched. */
  function BuildPayload(e: Entries): (p: Payload)
    ensures p.title == e.title && p.dueDate == e.dueDate
    ensures p.number == ParseInt(e.number) && p.estimatedHours == ParseInt(e.estimatedHours)
    ensures p.importance == ParseInt(e.importance)
    ensures p.dependencies == ParseDependencies(e.dependencies)
  {
    Payload(ParseInt(e.number), e.title, e.dueDate, ParseInt(e.estimatedHours),
            ParseInt(e.importance), ParseDependencies(e.dependencies))
  }

  // ---------------------------------------------------------------------------
  // Properties of the dependency parser
  // ---------------------------------------------------------------------------

  /** A field with no numeric piece (the empty field among them) yields `[]`. */
  lemma NoNumberNoDependencies(s: string)
    requires forall p :: p in Split(s, ',') ==> ParseId(p).None?
    ensures ParseDependencies(s) == []
  {
    var pieces := Split(s, ',');
    forall k | 0 <= k < |pieces| ensures ParsePieces(pieces)[k].None? {
      MapAt(ParseId, pieces, k);
      assert pieces[k] in pieces;
    }
    NothingKept(ParsePieces(pieces));
  }

  lemma {:induction false} NothingKept(parsed: seq<Option<int>>)
    requires forall k :: 0 <= k < |parsed| ==> parsed[k].None?
    ensures KeepNumbers(parsed) == []
  {
    if parsed != [] {
      NothingKept(parsed[1..]);
    }
  }

  /** The empty field yields `[]`. */
  lemma EmptyFieldNoDependencies()
    ensures ParseDependencies("") == []
  {
    SplitWithoutSeparator("", ',');
    TrimStartOfUnspaced("");
    assert ParseId("") == None;
    NothingKept(ParsePieces([""]));
  }

  lemma {:induction false} MapAt<A, B>(f: A -> B, xs: seq<A>, k: int)
    requires 0 <= k < |xs|
    ensures Map(f, xs)[k] == f(xs[k])
  {
    if k > 0 {
      MapAt(f, xs[1..], k - 1);
    }
  }

  /** Order is kept: the ids of two fields joined by a comma are the ids of the
      first followed by the ids of the second. */
  lemma ParseAppend(a: string, b: string)
    ensures ParseDependencies(a + "," + b) == ParseDependencies(a) + ParseDependencies(b)
  {
    SplitAppend(a, b, ',');
    MapAppend(ParseId, Split(a, ','), Split(b, ','));
    KeepNumbersAppend(ParsePieces(Split(a, ',')), ParsePieces(Split(b, ',')));
  }

  lemma {:induction false} MapAppend<A, B>(f: A -> B, xs: seq<A>, ys: seq<A>)
    ensures Map(f, xs + ys) == Map(f, xs) + Map(f, ys)
  {
    if xs == [] {
      assert xs + ys == ys;
    } else {
      assert (xs + ys)[1..] == xs[1..] + ys;
      MapAppend(f, xs[1..], ys);
    }
  }

  lemma {:induction false} KeepNumbersAppend(x: seq<Option<int>>, y: seq<Option<int>>)
    ensures KeepNumbers(x + y) == KeepNumbers(x) + KeepNumbers(y)
  {
    if x == [] {
      assert x + y == y;
    } else {
      assert (x + y)[1..] == x[1..] + y;
      KeepNumbersAppend(x[1..], y);
    }
  }

  /** `ids.join(",")` with every id written by `String`. */
  function JoinIds(ids: seq<int>): string {
    if ids == [] then ""
    else if |ids| == 1 then IntToString(ids[0])
    else IntToString(ids[0]) + "," + JoinIds(ids[1..])
  }

  /** Round trip: a field holding a comma-separated list of ids is read back
      as exactly that list. */
  lemma {:induction false} ParseJoinedIds(ids: seq<int>)
    ensures ParseDependencies(JoinIds(ids)) == ids
  {
    if ids == [] {
      EmptyFieldNoDependencies();
    } else if |ids| == 1 {
      ParseSingleId(ids[0]);
    } else {
      ParseAppend(IntToString(ids[0]), JoinIds(ids[1..]));
      ParseSingleId(ids[0]);
      ParseJoinedIds(ids[1..]);
      assert ids == [ids[0]] + ids[1..];
    }
  }

  /** One id written by `String` is read back as itself. */
  lemma ParseSingleId(n: int)
    ensures ParseDependencies(IntToString(n)) == [n]
  {
    var s := IntToString(n);
    NoCommaInIntString(n);
    SplitWithoutSeparator(s, ',');
    LastIsDigit(n);
    TrimOfTrimmed(s);
    ParseIntOfIntToString(n);
    assert ParsePieces([s]) == [Some(n)];
  }

  lemma NoCommaInIntString(n: int)
    ensures ',' !in IntToString(n)
  {
    var ds := NatToString(if n < 0 then -n else n);
    assert forall i :: 0 <= i < |ds| ==> IsDigit(ds[i]);
    if n < 0 {
      assert IntToString(n) == "-" + ds;
      assert forall i :: 1 <= i < |IntToString(n)| ==> IntToString(n)[i] == ds[i - 1];
    }
  }

  lemma LastIsDigit(n: int)
    ensures var s := IntToString(n); !IsSpace(s[|s| - 1])
  {
    var ds := NatToString(if n < 0 then -n else n);
    assert IsDigit(ds[|ds| - 1]);
  }

  /** A form whose numeric fields were typed as integers and whose dependency
      field lists ids sends those very numbers. */
  lemma TypedNumbersSent(number: int, title: string, dueDate: string, hours: int, importance: int, ids: seq<int>)
    ensures BuildPayload(Entries(IntToString(number), title, dueDate, IntToString(hours),
                                 IntToString(importance), JoinIds(ids)))
         == Payload(Some(number), title, dueDate, Some(hours), Some(importance), ids)
  {
    ParseIntOfIntToString(number);
    ParseIntOfIntToString(hours);
    ParseIntOfIntToString(importance);
    ParseJoinedIds(ids);
  }
}
