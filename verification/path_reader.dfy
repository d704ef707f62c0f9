/** The reader of one path: serialized values checked against the object reader for a
    validation window, serialized pages, object pages, and the fallback between them. */
module PathReader {
  import opened Numbers
  import opened Cursor

  // ----- Columns -----

  /** Flat values with their index tuples laid end to end. */
  datatype Column = Column(values: seq<Value>, flat: seq<int>)

  const EMPTY := Column([], [])

  function Append(a: Column, b: Column): Column {
    Column(a.values + b.values, a.flat + b.flat)
  }

  function ColumnOf(items: seq<Item>): Column {
    if items == [] then EMPTY
    else Append(ColumnOf(items[..|items| - 1]), Column([items[|items| - 1].value], items[|items| - 1].indices))
  }

  lemma {:induction false} ColumnOfConcat(a: seq<Item>, b: seq<Item>)
    ensures ColumnOf(a + b) == Append(ColumnOf(a), ColumnOf(b))
  {
    if b == [] {
      assert a + b == a;
    } else {
      var n := |b| - 1;
      assert (a + b)[..|a + b| - 1] == a + b[..n];
      ColumnOfConcat(a, b[..n]);
    }
  }

  /** Equality of two decoded primitives: NaN equals NaN, and the zeros are equal. */
  predicate PrimitiveEqual(a: Value, b: Value) {
    match (a, b)
    case (Signed(x), Signed(y)) => x == y
    case (Unsigned(x), Unsigned(y)) => x == y
    case (Floating(x), Floating(y)) => if IsFinite(x) && IsFinite(y) then Real(x) == Real(y) else x == y
    case _ => false
  }

  predicate EqualDecodedValues(a: Column, b: Column) {
    a.flat == b.flat && |a.values| == |b.values| &&
    forall k :: 0 <= k < |a.values| ==> PrimitiveEqual(a.values[k], b.values[k])
  }

  predicate Numeric(items: seq<Item>) {
    forall k :: 0 <= k < |items| ==> !items[k].value.Text?
  }

  lemma {:induction false} NumericValues(items: seq<Item>)
    requires Numeric(items)
    ensures forall k :: 0 <= k < |ColumnOf(items).values| ==> !ColumnOf(items).values[k].Text?
  {
    if items != [] {
      NumericValues(items[..|items| - 1]);
    }
  }

  lemma {:induction false} EqualsItself(items: seq<Item>)
    requires Numeric(items)
    ensures EqualDecodedValues(ColumnOf(items), ColumnOf(items))
  {
    NumericValues(items);
  }

  /** What the universal reader finds below an obj. */
  function AllValues(obj: Node, levels: seq<Level>): seq<Item>
    requires LevelsOk(levels)
  {
    Rows(obj, levels, 0, [])
  }

  /** Values the object page can hand out: numbers, with the index depth of the path. */
  predicate Deliverable(items: seq<Item>, levels: seq<Level>) {
    Numeric(items) && Extends(items, [], Depth(levels, 0))
  }

  predicate Readable(obj: Node, levels: seq<Level>) {
    levels != [] && LevelsOk(levels) && WellFormed(obj, levels, 0) && Numeric(AllValues(obj, levels))
  }

  // ----- The serialized page cursor -----

  const SERIALIZED_PAGE_ROWS := 2048

  /** A byte-backed page cursor: what it would decode, its position, and where decoding breaks, if anywhere. */
  datatype SerializedPage = SerializedPage(items: seq<Item>, next: nat, badAt: Option<nat>)

  datatype SerializedRead = Exhausted | Broken | Decoded(items: seq<Item>, rest: SerializedPage)

  /** The next rows of a page cursor: all of them decode, or none is handed out. */
  function ReadSerialized(p: SerializedPage, rows: nat): SerializedRead {
    if p.next >= |p.items| || rows == 0 then SerializedRead.Exhausted
    else
      var n := Min(|p.items| - p.next, Min(rows, SERIALIZED_PAGE_ROWS));
      if p.badAt.Some? && p.next <= p.badAt.value < p.next + n then Broken
      else Decoded(p.items[p.next..p.next + n], p.(next := p.next + n))
  }

  /** A column holds the items from one position to a later one. */
  predicate Advances(items: seq<Item>, before: nat, after: nat, column: Column) {
    before < after <= |items| && column == ColumnOf(items[before..after])
  }

  predicate AdvancesPage(before: SerializedPage, after: SerializedPage, column: Column) {
    after == before.(next := after.next) && Advances(before.items, before.next, after.next, column)
  }

  datatype Mode = AutoMode | SerializedMode | ObjectMode

  datatype StartRoute = ObjectOnly | SerializedRoute | ObjectFallback | StartThrew

  datatype Attempt = NotAttempted(decoded: bool) | SerializedOk | FallbackTo(decoded: bool) | AttemptThrew

  datatype Route = NoEntry | SerializedValues | SerializedPages | ObjectPages

  datatype EntryStart = Started(route: Route, attemptDecoded: bool, fallback: bool) | EntryThrew

  datatype Source = NoPage | FromSerialized | FromObject | PageThrew

  class RootPathReader {
    const levels: seq<Level>
    const cursor: OffsetValueCursor
    /** Whether the plan can be read page by page. */
    const fixedMember: bool
    const planSupported: bool
    var mode: Mode
    var serializedActive: bool
    var fallbackRecorded: bool
    var validationRemaining: nat
    var page: Option<SerializedPage>
    /** How many fallbacks have been reported since the reader was started. */
    ghost var reports: nat
    /** A reader started in serialized mode that got its serialized route. */
    ghost var strict: bool

    predicate HasSerializedPage()
      reads this
    {
      page.Some? && page.value.next < |page.value.items|
    }

    predicate HasNumericPage()
      reads this, cursor
    {
      HasSerializedPage() || cursor.HasMore()
    }

    /** At most one page source is open; a fallback is reported once; a strict reader stays serialized. */
    ghost predicate Valid()
      reads this, cursor
    {
      && levels != [] && LevelsOk(levels) && cursor.Valid()
      && !(HasSerializedPage() && cursor.HasMore())
      && (cursor.HasMore() ==> Deliverable(cursor.all, levels))
      && reports == (if fallbackRecorded then 1 else 0)
      && (strict ==> mode.SerializedMode? && serializedActive && !cursor.HasMore())
    }

    constructor (levels: seq<Level>, fixedMember: bool, planSupported: bool)
      requires levels != [] && LevelsOk(levels)
      ensures Valid() && fresh(cursor) && !HasNumericPage()
      ensures this.levels == levels && this.fixedMember == fixedMember && this.planSupported == planSupported
      ensures !serializedActive && !strict
    {
      this.levels, this.fixedMember, this.planSupported := levels, fixedMember, planSupported;
      cursor := new OffsetValueCursor();
      mode, serializedActive, fallbackRecorded, validationRemaining, page := AutoMode, false, false, 0, None;
      reports, strict := 0, false;
    }

    /** Gives up serialized reading; in serialized mode that is an error and changes nothing. */
    method ActivateFallback() returns (threw: bool, activated: bool)
      requires Valid()
      modifies this`serializedActive, this`fallbackRecorded, this`reports
      ensures Valid()
      ensures threw <==> mode.SerializedMode?
      ensures threw ==>
        serializedActive == old(serializedActive) && fallbackRecorded == old(fallbackRecorded) && !activated
      ensures !threw ==> !serializedActive && fallbackRecorded && activated == !old(fallbackRecorded)
      ensures reports == old(reports) + if activated then 1 else 0
    {
      if mode.SerializedMode? {
        return true, false;
      }
      serializedActive := false;
      if fallbackRecorded {
        return false, false;
      }
      fallbackRecorded := true;
      reports := reports + 1;
      return false, true;
    }

    /** Starts the reader. `rejected` stands for a reason found by the caller, `isolated` for whether
        a separate file context for validation could be opened. */
    method StartSerialized(newMode: Mode, validationEntries: nat, rejected: bool, isolated: bool)
      returns (r: StartRoute)
      requires Valid() && !HasNumericPage()
      modifies this
      ensures Valid() && !HasNumericPage() && mode == newMode && validationRemaining == validationEntries
      ensures serializedActive <==> r.SerializedRoute?
      ensures strict <==> newMode.SerializedMode? && r.SerializedRoute?
      ensures r.ObjectFallback? <==> reports == 1
      ensures newMode.ObjectMode? ==> r.ObjectOnly?
      ensures newMode.AutoMode? ==> r == if rejected || !planSupported || (validationEntries > 0 && !isolated)
                                         then ObjectFallback else SerializedRoute
      ensures newMode.SerializedMode? ==> r.SerializedRoute? || r.StartThrew?
    {
      mode, validationRemaining, serializedActive, fallbackRecorded := newMode, validationEntries, false, false;
      reports, strict := 0, false;
      if newMode.ObjectMode? {
        return ObjectOnly;
      }
      if rejected || !planSupported || (validationRemaining > 0 && !isolated) {
        var threw, activated := ActivateFallback();
        if threw {
          return StartThrew;
        }
        return if activated then ObjectFallback else ObjectOnly;
      }
      page := None;
      serializedActive := true;
      strict := newMode.SerializedMode?;
      return SerializedRoute;
    }

    /** The decoder answers, and within the validation window its answer is that of the object reader. */
    predicate Accepts(obj: Node, answer: Option<Column>)
      reads this
      requires LevelsOk(levels)
    {
      serializedActive && answer.Some? &&
      (validationRemaining > 0 ==> !obj.Null? && EqualDecodedValues(answer.value, ColumnOf(AllValues(obj, levels))))
    }

    /** Decodes one entry. Within the validation window the answer must agree with the object reader. */
    method TryReadSerialized(obj: Node, answer: Option<Column>) returns (r: Attempt, column: Column)
      requires Valid() && Readable(obj, levels) && !cursor.HasMore()
      modifies this`serializedActive, this`fallbackRecorded, this`validationRemaining, this`page, this`reports
      ensures Valid()
      ensures !old(serializedActive) ==> r == NotAttempted(false)
      ensures r.SerializedOk? <==> old(Accepts(obj, answer))
      ensures r.SerializedOk? ==> answer == Some(column) && serializedActive && page.None?
      ensures r.SerializedOk? && old(validationRemaining) > 0 ==>
        validationRemaining == old(validationRemaining) - 1 && !obj.Null? &&
        EqualDecodedValues(column, ColumnOf(AllValues(obj, levels)))
      ensures r.FallbackTo? ==> !old(fallbackRecorded) && fallbackRecorded && !serializedActive
      ensures !r.FallbackTo? ==> fallbackRecorded == old(fallbackRecorded)
      ensures r.NotAttempted? ==> !serializedActive && (mode.SerializedMode? ==> !old(serializedActive))
      ensures r.AttemptThrew? ==> mode.SerializedMode? && old(serializedActive)
      ensures !r.AttemptThrew? && old(serializedActive) ==> page.None?
      ensures !old(serializedActive) ==> page == old(page)
    {
      column := EMPTY;
      if !serializedActive {
        return NotAttempted(false), column;
      }
      var reference := EMPTY;
      if validationRemaining > 0 && !obj.Null? {
        var items := CollectDirect(obj, levels, -1);
        reference := ColumnOf(items);
      }
      page := None;
      if answer.None? {
        var threw, activated := ActivateFallback();
        return if threw then AttemptThrew else if activated then FallbackTo(false) else NotAttempted(false), column;
      }
      column := answer.value;
      if validationRemaining > 0 {
        if obj.Null? || !EqualDecodedValues(column, reference) {
          var threw, activated := ActivateFallback();
          return if threw then AttemptThrew else if activated then FallbackTo(true) else NotAttempted(true), column;
        }
        validationRemaining := validationRemaining - 1;
      }
      return SerializedOk, column;
    }

    /** A fixed member outside the validation window is tried page by page, and not again as a whole. */
    predicate PagesFirst()
      reads this
    {
      serializedActive && fixedMember && validationRemaining == 0
    }

    method EndNumericPage()
      requires Valid()
      modifies this`page, cursor
      ensures Valid() && !HasNumericPage() && page.None?
    {
      page := None;
      cursor.Reset();
    }

    /** The serialized part of beginning an entry: pages first where they apply, then the whole answer. */
    method TrySerializedRoutes(obj: Node, pageAnswer: Option<SerializedPage>, answer: Option<Column>)
      returns (done: bool, r: EntryStart, column: Column)
      requires Valid() && Readable(obj, levels) && !HasNumericPage() && page.None?
      modifies this`serializedActive, this`fallbackRecorded, this`validationRemaining, this`page, this`reports
      ensures Valid() && !cursor.HasMore()
      ensures !done ==> !strict && page.None? && r.Started? && r.route.NoEntry?
      ensures r.EntryThrew? ==> done && mode.SerializedMode?
      ensures r.Started? ==> r.fallback == (fallbackRecorded && !old(fallbackRecorded))
      ensures done && r.Started? ==> r.route.SerializedPages? || r.route.SerializedValues?
      ensures done && r.Started? && r.route.SerializedPages? <==> old(PagesFirst()) && pageAnswer.Some?
      ensures done && r.Started? && r.route.SerializedPages? ==> page == pageAnswer
      ensures done && r.Started? && r.route.SerializedValues? <==> !old(PagesFirst()) && old(Accepts(obj, answer))
      ensures done && r.Started? && r.route.SerializedValues? ==> answer == Some(column) && page.None?
    {
      column := EMPTY;
      var fallback := false;
      if PagesFirst() {
        if pageAnswer.Some? {
          page := pageAnswer;
          return true, Started(SerializedPages, false, false), column;
        }
        var threw, activated := ActivateFallback();
        if threw {
          return true, EntryThrew, column;
        }
        fallback := activated;
      }
      var decoded := false;
      if serializedActive {
        var attempt;
        attempt, column := TryReadSerialized(obj, answer);
        if attempt.AttemptThrew? {
          return true, EntryThrew, EMPTY;
        }
        if attempt.SerializedOk? {
          return true, Started(SerializedValues, true, fallback), column;
        }
        fallback := fallback || attempt.FallbackTo?;
        decoded := attempt.decoded;
      }
      return false, Started(NoEntry, decoded, fallback), column;
    }

    /** Chooses serialized pages, serialized values or object pages for one entry. `pageAnswer` and `answer`
        are whatever the serialized decoder returns, `obj` is what the object reader returns. */
    method BeginNumericEntry(obj: Node, pageAnswer: Option<SerializedPage>, answer: Option<Column>)
      returns (r: EntryStart, column: Column)
      requires Valid() && Readable(obj, levels)
      modifies this`serializedActive, this`fallbackRecorded, this`validationRemaining, this`page, this`reports, cursor
      ensures Valid()
      ensures old(HasNumericPage()) ==> r.EntryThrew?
      ensures r.EntryThrew? ==> old(HasNumericPage()) || mode.SerializedMode?
      ensures r.Started? ==> r.fallback == (fallbackRecorded && !old(fallbackRecorded))
      ensures r.Started? && r.route.SerializedPages? <==>
        !old(HasNumericPage()) && old(PagesFirst()) && pageAnswer.Some?
      ensures r.Started? && r.route.SerializedPages? ==> page == pageAnswer && !cursor.HasMore()
      ensures r.Started? && r.route.SerializedValues? <==>
        !old(HasNumericPage()) && !old(PagesFirst()) && old(Accepts(obj, answer))
      ensures r.Started? && r.route.SerializedValues? ==> answer == Some(column) && !HasNumericPage()
      ensures r.Started? && r.route.ObjectPages? ==>
        !strict && page.None? && cursor.delivered == 0 && cursor.all == AllValues(obj, levels)
      ensures r.Started? && r.route.NoEntry? ==> !strict && obj.Null? && !HasNumericPage()
    {
      column := EMPTY;
      if HasNumericPage() {
        return EntryThrew, column;
      }
      EndNumericPage();
      var done;
      done, r, column := TrySerializedRoutes(obj, pageAnswer, answer);
      if done || obj.Null? {
        return;
      }
      RowsExtend(obj, levels, 0, []);
      cursor.Open(obj, levels);
      return r.(route := ObjectPages), column;
    }

    /** Reads the next page of whichever source is open. A serialized page that breaks is an error:
        switching to the object reader now could repeat values. */
    method ReadNumericPage(rows: nat) returns (source: Source, column: Column)
      requires Valid()
      modifies this`page, cursor
      ensures Valid() && (cursor.HasMore() ==> cursor.all == old(cursor.all))
      ensures rows == 0 ==> source.PageThrew?
      ensures source.FromSerialized? ==> old(HasSerializedPage()) && page.Some?
      ensures source.FromSerialized? ==> AdvancesPage(old(page.value), page.value, column)
      ensures source.FromObject? ==>
        !strict && old(cursor.HasMore()) && cursor.all == old(cursor.all) && page == old(page)
      ensures source.FromObject? ==> Advances(cursor.all, old(cursor.delivered), cursor.delivered, column)
      ensures source.NoPage? ==> !HasNumericPage() && column == EMPTY
      ensures source.NoPage? && old(cursor.HasMore()) ==> old(cursor.delivered) == |old(cursor.all)|
      ensures source.PageThrew? && rows > 0 ==> old(HasSerializedPage()) && old(page).value.badAt.Some?
      ensures rows > 0 && old(HasSerializedPage()) ==> source.PageThrew? || source.FromSerialized?
      ensures !old(cursor.HasMore()) ==> !cursor.HasMore()
    {
      column := EMPTY;
      if rows == 0 {
        return PageThrew, column;
      }
      if HasSerializedPage() {
        var r := ReadSerialized(page.value, rows);
        if !r.Decoded? {
          return PageThrew, column;
        }
        page := Some(r.rest);
        return FromSerialized, ColumnOf(r.items);
      }
      if !cursor.HasMore() {
        return NoPage, column;
      }
      var objects := cursor.ReadPage(rows);
      if !objects.Values? {
        return NoPage, column;
      }
      if exists k :: 0 <= k < |objects.rows| &&
           (objects.rows[k].value.Text? || |objects.rows[k].indices| != Depth(levels, 0))
      {
        return PageThrew, column;
      }
      return FromObject, ColumnOf(objects.rows);
    }
  }

  // ----- Reading whole entries -----

  lemma {:induction false} AppendAdvance(items: seq<Item>, start: nat, before: nat, after: nat, sofar: Column,
                                         column: Column)
    requires start <= before && Advances(items, before, after, column) && sofar == ColumnOf(items[start..before])
    ensures Append(sofar, column) == ColumnOf(items[start..after])
  {
    ColumnOfConcat(items[start..before], items[before..after]);
    assert items[start..after] == items[start..before] + items[before..after];
  }

  /** Object pages of any sizes add up to the traversal of the object. */
  method DrainObject(reader: RootPathReader, size: nat -> nat) returns (column: Column)
    requires reader.Valid() && !reader.HasSerializedPage() && reader.cursor.delivered == 0
    requires forall k :: size(k) > 0
    modifies reader`page, reader.cursor
    ensures reader.Valid() && !reader.HasNumericPage()
    ensures column == ColumnOf(old(reader.cursor.all))
  {
    ghost var all := reader.cursor.all;
    column := EMPTY;
    var pages := 0;
    assert all[0..0] == [];
    while reader.HasNumericPage()
      invariant reader.Valid() && !reader.HasSerializedPage()
      invariant reader.cursor.HasMore() ==>
        reader.cursor.all == all && column == ColumnOf(all[0..reader.cursor.delivered])
      invariant !reader.cursor.HasMore() ==> column == ColumnOf(all)
      decreases if reader.cursor.HasMore() then |all| - reader.cursor.delivered + 1 else 0
    {
      ghost var before := reader.cursor.delivered;
      var source, part := reader.ReadNumericPage(size(pages));
      if source.FromObject? {
        AppendAdvance(all, 0, before, reader.cursor.delivered, column, part);
        column := Append(column, part);
      }
      assert all[0..|all|] == all;
      pages := pages + 1;
    }
  }

  /** Serialized pages add up to what the page cursor decodes, unless decoding breaks. */
  method DrainSerialized(reader: RootPathReader, size: nat -> nat) returns (ok: bool, column: Column)
    requires reader.Valid() && !reader.cursor.HasMore() && reader.page.Some? &&
      reader.page.value.next <= |reader.page.value.items|
    requires forall k :: size(k) > 0
    modifies reader`page, reader.cursor
    ensures reader.Valid() && (ok ==> !reader.HasNumericPage())
    ensures ok ==> column == ColumnOf(old(reader.page.value.items)[old(reader.page.value.next)..])
    ensures !ok ==> old(reader.page.value.badAt).Some?
  {
    ghost var first := reader.page.value;
    column := EMPTY;
    var pages := 0;
    assert first.items[first.next..first.next] == [];
    while reader.HasNumericPage()
      invariant reader.Valid() && !reader.cursor.HasMore() && reader.page.Some?
      invariant reader.page.value == first.(next := reader.page.value.next)
      invariant first.next <= reader.page.value.next <= |first.items|
      invariant column == ColumnOf(first.items[first.next..reader.page.value.next])
      decreases |first.items| - reader.page.value.next
    {
      ghost var before := reader.page.value.next;
      var source, part := reader.ReadNumericPage(size(pages));
      if source.PageThrew? {
        return false, column;
      }
      AppendAdvance(first.items, first.next, before, reader.page.value.next, column, part);
      column := Append(column, part);
      pages := pages + 1;
    }
    assert first.items[first.next..|first.items|] == first.items[first.next..];
    ok := true;
  }

  /** One whole entry, whatever the decoder answers. In the validation window and after a fallback the
      result is the object traversal; a strict reader only ever delivers serialized values. */
  method ReadEntry(reader: RootPathReader, obj: Node, pageAnswer: Option<SerializedPage>, answer: Option<Column>,
                   size: nat -> nat)
    returns (ok: bool, column: Column)
    requires reader.Valid() && !reader.HasNumericPage() && Readable(obj, reader.levels)
    requires pageAnswer.Some? ==> pageAnswer.value.next == 0
    requires forall k :: size(k) > 0
    modifies reader, reader.cursor
    ensures reader.Valid() && (ok ==> !reader.HasNumericPage())
    ensures !reader.mode.SerializedMode? && (old(reader.validationRemaining) > 0 || !old(reader.serializedActive)) ==>
      ok && EqualDecodedValues(column, ColumnOf(AllValues(obj, reader.levels)))
    ensures old(reader.strict) && ok ==>
      answer == Some(column) || (pageAnswer.Some? && column == ColumnOf(pageAnswer.value.items))
    ensures old(reader.PagesFirst()) && pageAnswer.Some? && pageAnswer.value.badAt.None? ==>
      ok && column == ColumnOf(pageAnswer.value.items)
    ensures !old(reader.PagesFirst()) && old(reader.Accepts(obj, answer)) ==> ok && answer == Some(column)
    ensures reader.strict == old(reader.strict) && reader.mode == old(reader.mode)
  {
    EqualsItself(AllValues(obj, reader.levels));
    var start;
    start, column := reader.BeginNumericEntry(obj, pageAnswer, answer);
    if start.EntryThrew? {
      return false, EMPTY;
    }
    match start.route
    case NoEntry =>
      return true, EMPTY;
    case SerializedValues =>
      return true, column;
    case SerializedPages =>
      ok, column := DrainSerialized(reader, size);
      assert pageAnswer.value.items[0..] == pageAnswer.value.items;
    case ObjectPages =>
      column := DrainObject(reader, size);
      ok := true;
  }
}
