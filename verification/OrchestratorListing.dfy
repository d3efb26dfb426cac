/** What the orchestrator validator reports and how the sort arranges rows, told from the
    records and the documented rules. */
module OrchestratorListing {
  import opened Common
  import opened Listing
  import opened Orchestrators

  // ----- The validator's report -----

  /** What is wrong with one value, under the definition in force: position 0 looks at its
      shape, and at the tag of a single-tag value; position k + 1 at the k-th tag of a list. */
  function ValueFaultAt(record: string, key: string, def: Def, value: Value, k: nat): Found<Fault> {
    if k == 0 then
      if !HasShape(def.kind, value) then Found(TypeMismatch(record, key))
      else if def.kind == SingleTag && def.tagEnum.Some? && value.text !in def.tagEnum.value
      then Found(TagOutOfEnum(record, key, value.text))
      else Nothing
    else if def.kind == MultiTag && value.Tags? && k <= |value.tags| && def.tagEnum.GetOr([]) != []
            && value.tags[k - 1] !in def.tagEnum.value
    then Found(TagOutOfEnum(record, key, value.tags[k - 1]))
    else Nothing
  }

  predicate HasShape(kind: AttributeType, value: Value) {
    match kind
    case Boolean => value.Flag?
    case Text => value.Str?
    case SingleTag => value.Str?
    case MultiTag => value.Tags?
  }

  /** Part 0 walks the definitions, part 1 the records, their attributes and the tags. */
  function FaultAt(defs: seq<Def>, records: seq<Record>): Place -> Found<Fault> {
    (p: Place) =>
      if p.part == 0 && p.outer < |defs| && p.middle == 0 && p.inner == 0 then
        var def := defs[p.outer];
        if def.kind in {SingleTag, MultiTag} && def.tagEnum in {None, Some([])} then Found(MissingEnum(def.id))
        else Nothing
      else if p.part == 1 && p.outer < |records| && p.middle < |records[p.outer].attributes| then
        EntryFaultAt(defs, records[p.outer].id, records[p.outer].attributes[p.middle], p.inner)
      else Nothing
  }

  function EntryFaultAt(defs: seq<Def>, record: string, entry: Entry, k: nat): Found<Fault> {
    if entry.key in ById(defs) then ValueFaultAt(record, entry.key, ById(defs)[entry.key], entry.value, k)
    else if k == 0 then Found(UnknownAttribute(record, entry.key))
    else Nothing
  }

  /** Of definitions with one id the last is in force. */
  lemma LastDefinitionIsInForce(defs: seq<Def>, i: nat)
    requires i < |defs| && forall j :: i < j < |defs| ==> defs[j].id != defs[i].id
    ensures defs[i].id in ById(defs) && ById(defs)[defs[i].id] == defs[i]
  {
    LastByIdIsLast(defs, DefId, i);
  }

  lemma OneStep(at: Place -> Found<Fault>, p: Place, high: Place, items: seq<Fault>) returns (places: seq<Place>)
    requires Below(p, high) && forall q :: Below(p, q) && Below(q, high) ==> at(q).Nothing?
    requires items == if at(p).Found? then [at(p).item] else []
    ensures Lists(at, items, places, p, high)
  {
    if at(p).Found? {
      places := [p];
      ListsOne(at, p, at(p).item, high);
    } else {
      places := [];
      forall q | !Below(q, p) && Below(q, high) ensures at(q).Nothing? {
        assert q == p || Below(p, q);
      }
      ListsNothing(at, p, high);
    }
  }

  lemma {:induction false} DefFaultsAre(defs: seq<Def>, records: seq<Record>, n: nat) returns (places: seq<Place>)
    requires n <= |defs|
    ensures Lists(FaultAt(defs, records), DefFaults(defs[..n]), places, Place(0, 0, 0, 0), Place(0, n, 0, 0))
  {
    var at := FaultAt(defs, records);
    if n == 0 {
      places := [];
      ListsNothing(at, Place(0, 0, 0, 0), Place(0, 0, 0, 0));
    } else {
      var before := DefFaultsAre(defs, records, n - 1);
      var items := if LacksEnum(defs[n - 1]) then [MissingEnum(defs[n - 1].id)] else [];
      var more := OneStep(at, Place(0, n - 1, 0, 0), Place(0, n, 0, 0), items);
      assert defs[..n][..n - 1] == defs[..n - 1];
      assert DefFaults(defs[..n]) == DefFaults(defs[..n - 1]) + items;
      places := before + more;
      ListsConcatenation(at, DefFaults(defs[..n - 1]), before, items, more,
                         Place(0, 0, 0, 0), Place(0, n - 1, 0, 0), Place(0, n, 0, 0));
    }
  }

  ghost predicate IsEntry(records: seq<Record>, i: nat, j: nat) {
    i < |records| && j < |records[i].attributes|
  }

  lemma {:induction false} TagFaultsAre(defs: seq<Def>, records: seq<Record>, i: nat, j: nat, n: nat)
    returns (places: seq<Place>)
    requires IsEntry(records, i, j)
    requires var entry := records[i].attributes[j];
      && entry.key in ById(defs) && ById(defs)[entry.key].kind == MultiTag && entry.value.Tags?
      && ById(defs)[entry.key].tagEnum.GetOr([]) != [] && n <= |entry.value.tags|
    ensures var entry := records[i].attributes[j];
      var tagEnum := ById(defs)[entry.key].tagEnum.value;
      Lists(FaultAt(defs, records), TagFaults(records[i].id, entry.key, tagEnum, entry.value.tags[..n]), places,
            Place(1, i, j, 1), Place(1, i, j, n + 1))
  {
    var at, entry, record := FaultAt(defs, records), records[i].attributes[j], records[i].id;
    var tagEnum, tags := ById(defs)[entry.key].tagEnum.value, entry.value.tags;
    if n == 0 {
      places := [];
      ListsNothing(at, Place(1, i, j, 1), Place(1, i, j, 1));
    } else {
      var before := TagFaultsAre(defs, records, i, j, n - 1);
      var items := if tags[n - 1] in tagEnum then [] else [TagOutOfEnum(record, entry.key, tags[n - 1])];
      var more := OneStep(at, Place(1, i, j, n), Place(1, i, j, n + 1), items);
      assert tags[..n][..n - 1] == tags[..n - 1];
      assert TagFaults(record, entry.key, tagEnum, tags[..n])
          == TagFaults(record, entry.key, tagEnum, tags[..n - 1]) + items;
      places := before + more;
      ListsConcatenation(at, TagFaults(record, entry.key, tagEnum, tags[..n - 1]), before, items, more,
                         Place(1, i, j, 1), Place(1, i, j, n), Place(1, i, j, n + 1));
    }
  }

  lemma EntryFaultsAre(defs: seq<Def>, records: seq<Record>, i: nat, j: nat) returns (places: seq<Place>)
    requires IsEntry(records, i, j)
    ensures Lists(FaultAt(defs, records), EntryFaults(ById(defs), records[i].id, records[i].attributes[j]), places,
                  Place(1, i, j, 0), Place(1, i, j + 1, 0))
  {
    var at, entry, record := FaultAt(defs, records), records[i].attributes[j], records[i].id;
    var low, high := Place(1, i, j, 0), Place(1, i, j + 1, 0);
    if entry.key in ById(defs) && ById(defs)[entry.key].kind == MultiTag && entry.value.Tags?
       && ById(defs)[entry.key].tagEnum.GetOr([]) != [] {
      var n, tagEnum := |entry.value.tags|, ById(defs)[entry.key].tagEnum.value;
      var tags := TagFaultsAre(defs, records, i, j, n);
      TakeAll(entry.value.tags);
      ListsNothing(at, low, Place(1, i, j, 1));
      ListsNothing(at, Place(1, i, j, n + 1), high);
      var faults := TagFaults(record, entry.key, tagEnum, entry.value.tags);
      ListsConcatenation(at, [], [], faults, tags, low, Place(1, i, j, 1), Place(1, i, j, n + 1));
      places := [] + tags + [];
      ListsConcatenation(at, [] + faults, [] + tags, [], [], low, Place(1, i, j, n + 1), high);
      assert [] + faults + [] == faults;
    } else {
      forall q | Below(low, q) && Below(q, high) ensures at(q).Nothing? {
        assert q == Place(1, i, j, q.inner) && q.inner > 0;
      }
      places := OneStep(at, low, high, EntryFaults(ById(defs), record, entry));
    }
  }

  lemma {:induction false} EntriesFaultsAre(defs: seq<Def>, records: seq<Record>, i: nat, n: nat)
    returns (places: seq<Place>)
    requires i < |records| && n <= |records[i].attributes|
    ensures Lists(FaultAt(defs, records), EntriesFaults(ById(defs), records[i].id, records[i].attributes[..n]), places,
                  Place(1, i, 0, 0), Place(1, i, n, 0))
  {
    var at, entries, record := FaultAt(defs, records), records[i].attributes, records[i].id;
    if n == 0 {
      places := [];
      ListsNothing(at, Place(1, i, 0, 0), Place(1, i, 0, 0));
    } else {
      var before := EntriesFaultsAre(defs, records, i, n - 1);
      var more := EntryFaultsAre(defs, records, i, n - 1);
      assert entries[..n][..n - 1] == entries[..n - 1];
      places := before + more;
      ListsConcatenation(at, EntriesFaults(ById(defs), record, entries[..n - 1]), before,
                         EntryFaults(ById(defs), record, entries[n - 1]), more,
                         Place(1, i, 0, 0), Place(1, i, n - 1, 0), Place(1, i, n, 0));
    }
  }

  lemma {:induction false} RecordFaultsAre(defs: seq<Def>, records: seq<Record>, n: nat) returns (places: seq<Place>)
    requires n <= |records|
    ensures Lists(FaultAt(defs, records), RecordFaults(ById(defs), records[..n]), places,
                  Place(1, 0, 0, 0), Place(1, n, 0, 0))
  {
    var at := FaultAt(defs, records);
    if n == 0 {
      places := [];
      ListsNothing(at, Place(1, 0, 0, 0), Place(1, 0, 0, 0));
    } else {
      var record := records[n - 1];
      var m, low, high := |record.attributes|, Place(1, n - 1, 0, 0), Place(1, n, 0, 0);
      var before := RecordFaultsAre(defs, records, n - 1);
      var entries := EntriesFaultsAre(defs, records, n - 1, m);
      TakeAll(record.attributes);
      ListsNothing(at, Place(1, n - 1, m, 0), high);
      var faults := EntriesFaults(ById(defs), record.id, record.attributes);
      ListsConcatenation(at, faults, entries, [], [], low, Place(1, n - 1, m, 0), high);
      assert faults + [] == faults && entries + [] == entries;
      assert records[..n][..n - 1] == records[..n - 1];
      places := before + entries;
      ListsConcatenation(at, RecordFaults(ById(defs), records[..n - 1]), before, faults, entries,
                         Place(1, 0, 0, 0), low, high);
    }
  }

  /** The report holds everything that is wrong, each fault once, definitions first, then
      record by record, attribute by attribute and tag by tag. */
  lemma ReportIsComplete(defs: seq<Def>, records: seq<Record>) returns (places: seq<Place>)
    ensures Lists(FaultAt(defs, records), Faults(defs, records), places, Place(0, 0, 0, 0), Place(2, 0, 0, 0))
    ensures forall p :: FaultAt(defs, records)(p).Found? ==> p in places
  {
    var at, n, m := FaultAt(defs, records), |defs|, |records|;
    var defFaults, recordFaults := DefFaults(defs), RecordFaults(ById(defs), records);
    var a := DefFaultsAre(defs, records, n);
    var b := RecordFaultsAre(defs, records, m);
    TakeAll(defs);
    TakeAll(records);
    ListsNothing(at, Place(0, n, 0, 0), Place(1, 0, 0, 0));
    ListsNothing(at, Place(1, m, 0, 0), Place(2, 0, 0, 0));
    ListsConcatenation(at, defFaults, a, [], [], Place(0, 0, 0, 0), Place(0, n, 0, 0), Place(1, 0, 0, 0));
    ListsConcatenation(at, recordFaults, b, [], [], Place(1, 0, 0, 0), Place(1, m, 0, 0), Place(2, 0, 0, 0));
    assert defFaults + [] == defFaults && recordFaults + [] == recordFaults;
    places := (a + []) + (b + []);
    ListsConcatenation(at, defFaults, a + [], recordFaults, b + [],
                       Place(0, 0, 0, 0), Place(1, 0, 0, 0), Place(2, 0, 0, 0));
  }

  // ----- The sort -----

  /** The text a row is sorted by: 1 for true and 0 for false, a text itself, and the tags of
      a list from first to last, separated by commas; none without the attribute. */
  ghost predicate SortsBy(row: Record, attribute: string, text: Option<string>) {
    match text
    case None => forall entry :: entry in row.attributes ==> entry.key != attribute
    case Some(t) =>
      exists i ::
        && 0 <= i < |row.attributes| && row.attributes[i].key == attribute
        && (forall j :: 0 <= j < i ==> row.attributes[j].key != attribute)
        && match row.attributes[i].value
           case Flag(flag) => t == if flag then "1" else "0"
           case Str(s) => t == s
           case Tags(tags) => IsJoined(tags, t)
  }

  ghost predicate IsJoined(tags: seq<string>, text: string) {
    if |tags| <= 1 then text == if tags == [] then "" else tags[0]
    else
      var front, last := tags[..|tags| - 1], tags[|tags| - 1];
      exists head :: IsJoined(front, head) && text == head + "," + last
  }

  lemma {:induction false} JoinAtEnd(tags: seq<string>)
    requires |tags| > 1
    ensures Join(tags) == Join(tags[..|tags| - 1]) + "," + tags[|tags| - 1]
  {
    var front, last := tags[..|tags| - 1], tags[|tags| - 1];
    if |tags| == 2 {
      assert tags[1..] == [last];
    } else {
      JoinAtEnd(tags[1..]);
      assert tags[1..][..|tags| - 2] == front[1..];
      assert Join(tags) == tags[0] + "," + (Join(front[1..]) + "," + last);
      assert Join(front) + "," + last == tags[0] + "," + Join(front[1..]) + "," + last;
    }
  }

  lemma {:induction false} JoinIsJoined(tags: seq<string>)
    ensures IsJoined(tags, Join(tags))
  {
    if |tags| > 1 {
      JoinIsJoined(tags[..|tags| - 1]);
      JoinAtEnd(tags);
    }
  }

  lemma {:induction false} FirstEntry(entries: seq<Entry>, attribute: string) returns (i: nat)
    requires LookupIn(entries, attribute).Some?
    ensures i < |entries| && entries[i].key == attribute && entries[i].value == LookupIn(entries, attribute).value
    ensures forall j :: 0 <= j < i ==> entries[j].key != attribute
  {
    if entries[0].key == attribute {
      i := 0;
    } else {
      i := FirstEntry(entries[1..], attribute);
      i := i + 1;
    }
  }

  lemma {:induction false} NoEntry(entries: seq<Entry>, attribute: string)
    requires LookupIn(entries, attribute).None?
    ensures forall entry :: entry in entries ==> entry.key != attribute
  {
    if entries != [] {
      NoEntry(entries[1..], attribute);
    }
  }

  lemma RankIsSortText(row: Record, attribute: string)
    ensures SortsBy(row, attribute, Rank(row, attribute))
  {
    if Lookup(row, attribute).None? {
      NoEntry(row.attributes, attribute);
    } else {
      var i := FirstEntry(row.attributes, attribute);
      if row.attributes[i].value.Tags? {
        JoinIsJoined(row.attributes[i].value.tags);
      }
    }
  }

  /** The documented order of two rows with the given texts and ids: by text, a missing one
      last in ascending and first in descending order, and by id where the texts agree. */
  predicate InOrder(leq: (string, string) -> bool, direction: Direction,
                    a: Option<string>, idA: string, b: Option<string>, idB: string) {
    if a == b then leq(idA, idB)
    else match direction
      case Asc => a.Some? && (b.None? || leq(a.value, b.value))
      case Desc => b.Some? && (a.None? || leq(b.value, a.value))
  }

  lemma OrderIsInOrder(leq: (string, string) -> bool, attribute: string, direction: Direction, a: Record, b: Record)
    requires Collation(leq)
    ensures RowOrder(leq, attribute, direction)(a, b)
       <==> InOrder(leq, direction, Rank(a, attribute), a.id, Rank(b, attribute), b.id)
  {
    ComparisonIsDecision(leq, attribute, direction, a, b);
    assert leq(a.id, a.id) || leq(a.id, a.id);
  }

  /** The sorted rows are the given ones, in the documented order of the texts they are
      sorted by. */
  lemma RowsAreSorted(leq: (string, string) -> bool, attribute: string, direction: Direction, rows: seq<Record>)
    returns (texts: seq<Option<string>>)
    requires Collation(leq)
    ensures var sorted := SortOrchestrators(leq, attribute, direction, rows);
      && multiset(sorted) == multiset(rows) && |texts| == |sorted|
      && (forall i :: 0 <= i < |sorted| ==> SortsBy(sorted[i], attribute, texts[i]))
      && forall i, j | 0 <= i < j < |sorted| ::
           InOrder(leq, direction, texts[i], sorted[i].id, texts[j], sorted[j].id)
  {
    var order, sorted := RowOrder(leq, attribute, direction), SortOrchestrators(leq, attribute, direction, rows);
    ComparatorIsStrictTotalOrder(leq, attribute, direction);
    SortIsSorted(order, rows);
    texts := seq(|sorted|, i requires 0 <= i < |sorted| => Rank(sorted[i], attribute));
    forall i | 0 <= i < |sorted| ensures SortsBy(sorted[i], attribute, texts[i]) {
      RankIsSortText(sorted[i], attribute);
    }
    forall i, j | 0 <= i < j < |sorted|
      ensures InOrder(leq, direction, texts[i], sorted[i].id, texts[j], sorted[j].id)
    {
      assert order(sorted[i], sorted[j]);
      OrderIsInOrder(leq, attribute, direction, sorted[i], sorted[j]);
    }
  }
}
