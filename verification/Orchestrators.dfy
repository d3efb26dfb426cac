/** The orchestrator registry: agreement of records with attribute definitions, and the
    single-attribute sort. `localeCompare` is a total order `leq` on strings. */
module Orchestrators {
  import opened Common

  datatype AttributeType = Boolean | Text | SingleTag | MultiTag

  datatype Def = Def(id: string, kind: AttributeType, tagEnum: Option<seq<string>>)

  datatype Value = Flag(flag: bool) | Str(text: string) | Tags(tags: seq<string>)

  datatype Entry = Entry(key: string, value: Value)

  datatype Record = Record(id: string, attributes: seq<Entry>)

  // ---------------------------------------------------------------- validation

  datatype Fault =
    | MissingEnum(def: string)
    | UnknownAttribute(record: string, key: string)
    | TypeMismatch(record: string, key: string)
    | TagOutOfEnum(record: string, key: string, tag: string)

  predicate IsTagged(def: Def) {
    def.kind == SingleTag || def.kind == MultiTag
  }

  predicate LacksEnum(def: Def) {
    IsTagged(def) && def.tagEnum.GetOr([]) == []
  }

  function DefId(def: Def): string {
    def.id
  }

  function ById(defs: seq<Def>): (r: map<string, Def>)
    ensures forall id :: id in r ==> r[id] in defs && r[id].id == id
    ensures forall def :: def in defs ==> def.id in r
  {
    LastByIdHolds(defs, DefId);
    LastById(defs, DefId)
  }

  function DefFaults(defs: seq<Def>): seq<Fault> {
    if defs == [] then []
    else
      var front, last := defs[..|defs| - 1], defs[|defs| - 1];
      if LacksEnum(last) then DefFaults(front) + [MissingEnum(last.id)] else DefFaults(front)
  }

  function TagFaults(record: string, key: string, tagEnum: seq<string>, tags: seq<string>): seq<Fault> {
    if tags == [] then []
    else
      var front, last := tags[..|tags| - 1], tags[|tags| - 1];
      if last in tagEnum then TagFaults(record, key, tagEnum, front)
      else TagFaults(record, key, tagEnum, front) + [TagOutOfEnum(record, key, last)]
  }

  function EntryFaults(defs: map<string, Def>, record: string, entry: Entry): seq<Fault> {
    if entry.key !in defs then [UnknownAttribute(record, entry.key)]
    else
      var def := defs[entry.key];
      match def.kind
      case Boolean => if entry.value.Flag? then [] else [TypeMismatch(record, entry.key)]
      case Text => if entry.value.Str? then [] else [TypeMismatch(record, entry.key)]
      case SingleTag =>
        if !entry.value.Str? then [TypeMismatch(record, entry.key)]
        else if def.tagEnum.Some? && entry.value.text !in def.tagEnum.value
        then [TagOutOfEnum(record, entry.key, entry.value.text)]
        else []
      case MultiTag =>
        if !entry.value.Tags? then [TypeMismatch(record, entry.key)]
        else if def.tagEnum.GetOr([]) == [] then []
        else TagFaults(record, entry.key, def.tagEnum.value, entry.value.tags)
  }

  function EntriesFaults(defs: map<string, Def>, record: string, entries: seq<Entry>): seq<Fault> {
    if entries == [] then []
    else EntriesFaults(defs, record, entries[..|entries| - 1]) + EntryFaults(defs, record, entries[|entries| - 1])
  }

  function RecordFaults(defs: map<string, Def>, records: seq<Record>): seq<Fault> {
    if records == [] then []
    else
      var last := records[|records| - 1];
      RecordFaults(defs, records[..|records| - 1]) + EntriesFaults(defs, last.id, last.attributes)
  }

  function Faults(defs: seq<Def>, records: seq<Record>): seq<Fault> {
    DefFaults(defs) + RecordFaults(ById(defs), records)
  }

  method CollectTagFaults(record: string, key: string, tagEnum: seq<string>, tags: seq<string>)
    returns (errors: seq<Fault>)
    ensures errors == TagFaults(record, key, tagEnum, tags)
  {
    errors := [];
    for i := 0 to |tags|
      invariant errors == TagFaults(record, key, tagEnum, tags[..i])
    {
      assert tags[..i + 1][..i] == tags[..i];
      if tags[i] !in tagEnum {
        errors := errors + [TagOutOfEnum(record, key, tags[i])];
      }
    }
    assert tags[..|tags|] == tags;
  }

  method CheckEntry(defsById: map<string, Def>, record: string, entry: Entry) returns (errors: seq<Fault>)
    ensures errors == EntryFaults(defsById, record, entry)
  {
    if entry.key !in defsById {
      return [UnknownAttribute(record, entry.key)];
    }
    var def := defsById[entry.key];
    errors := [];
    match def.kind
    case Boolean =>
      if !entry.value.Flag? {
        errors := [TypeMismatch(record, entry.key)];
      }
    case Text =>
      if !entry.value.Str? {
        errors := [TypeMismatch(record, entry.key)];
      }
    case SingleTag =>
      if !entry.value.Str? {
        errors := [TypeMismatch(record, entry.key)];
      } else if def.tagEnum.Some? && entry.value.text !in def.tagEnum.value {
        errors := [TagOutOfEnum(record, entry.key, entry.value.text)];
      }
    case MultiTag =>
      if !entry.value.Tags? {
        errors := [TypeMismatch(record, entry.key)];
      } else if def.tagEnum.Some? && def.tagEnum.value != [] {
        errors := CollectTagFaults(record, entry.key, def.tagEnum.value, entry.value.tags);
      }
  }

  method CheckDefs(attributeDefs: seq<Def>) returns (errors: seq<Fault>)
    ensures errors == DefFaults(attributeDefs)
  {
    errors := [];
    for i := 0 to |attributeDefs|
      invariant errors == DefFaults(attributeDefs[..i])
    {
      assert attributeDefs[..i + 1][..i] == attributeDefs[..i];
      if LacksEnum(attributeDefs[i]) {
        errors := errors + [MissingEnum(attributeDefs[i].id)];
      }
    }
    assert attributeDefs[..|attributeDefs|] == attributeDefs;
  }

  method CheckEntries(defsById: map<string, Def>, record: string, entries: seq<Entry>) returns (errors: seq<Fault>)
    ensures errors == EntriesFaults(defsById, record, entries)
  {
    errors := [];
    for j := 0 to |entries|
      invariant errors == EntriesFaults(defsById, record, entries[..j])
    {
      assert entries[..j + 1][..j] == entries[..j];
      var found := CheckEntry(defsById, record, entries[j]);
      errors := errors + found;
    }
    assert entries[..|entries|] == entries;
  }

  method CheckRecords(defsById: map<string, Def>, orchestrators: seq<Record>) returns (errors: seq<Fault>)
    ensures errors == RecordFaults(defsById, orchestrators)
  {
    errors := [];
    for i := 0 to |orchestrators|
      invariant errors == RecordFaults(defsById, orchestrators[..i])
    {
      assert orchestrators[..i + 1][..i] == orchestrators[..i];
      var found := CheckEntries(defsById, orchestrators[i].id, orchestrators[i].attributes);
      errors := errors + found;
    }
    assert orchestrators[..|orchestrators|] == orchestrators;
  }

  method ValidateAttributeAgreement(attributeDefs: seq<Def>, orchestrators: seq<Record>) returns (errors: seq<Fault>)
    ensures errors == Faults(attributeDefs, orchestrators)
  {
    var defsById := IndexById(attributeDefs, DefId);
    assert defsById == ById(attributeDefs);
    var defErrors := CheckDefs(attributeDefs);
    var recordErrors := CheckRecords(defsById, orchestrators);
    errors := defErrors + recordErrors;
  }

  /** A value of the definition's type whose tags all belong to the definition's enum. */
  predicate Conforms(def: Def, value: Value) {
    match def.kind
    case Boolean => value.Flag?
    case Text => value.Str?
    case SingleTag => value.Str? && value.text in def.tagEnum.GetOr([])
    case MultiTag => value.Tags? && forall tag :: tag in value.tags ==> tag in def.tagEnum.GetOr([])
  }

  /** What the registry promises: every tag definition lists its tags, and every attribute
      of every record is defined and conforms to the definition in force. */
  ghost predicate Agreement(defs: seq<Def>, records: seq<Record>) {
    && (forall def :: def in defs && IsTagged(def) ==> def.tagEnum.GetOr([]) != [])
    && forall record, entry :: record in records && entry in record.attributes
         ==> entry.key in ById(defs) && Conforms(ById(defs)[entry.key], entry.value)
  }

  lemma {:induction false} NoDefFaultsIff(defs: seq<Def>)
    ensures DefFaults(defs) == [] <==> forall def :: def in defs ==> !LacksEnum(def)
  {
    if defs != [] {
      var front, last := defs[..|defs| - 1], defs[|defs| - 1];
      NoDefFaultsIff(front);
      assert defs == front + [last];
      assert last in defs;
    }
  }

  lemma {:induction false} NoTagFaultsIff(record: string, key: string, tagEnum: seq<string>, tags: seq<string>)
    ensures TagFaults(record, key, tagEnum, tags) == [] <==> forall tag :: tag in tags ==> tag in tagEnum
  {
    if tags != [] {
      var front, last := tags[..|tags| - 1], tags[|tags| - 1];
      NoTagFaultsIff(record, key, tagEnum, front);
      assert tags == front + [last];
      assert last in tags;
    }
  }

  lemma NoEntryFaultsIff(defs: map<string, Def>, record: string, entry: Entry)
    requires forall id :: id in defs ==> !LacksEnum(defs[id])
    ensures EntryFaults(defs, record, entry) == [] <==> entry.key in defs && Conforms(defs[entry.key], entry.value)
  {
    if entry.key in defs && entry.value.Tags? {
      NoTagFaultsIff(record, entry.key, defs[entry.key].tagEnum.GetOr([]), entry.value.tags);
    }
  }

  ghost predicate EntriesConform(defs: map<string, Def>, entries: seq<Entry>) {
    forall entry :: entry in entries ==> entry.key in defs && Conforms(defs[entry.key], entry.value)
  }

  lemma {:induction false} NoEntriesFaultsIff(defs: map<string, Def>, record: string, entries: seq<Entry>)
    requires forall id :: id in defs ==> !LacksEnum(defs[id])
    ensures EntriesFaults(defs, record, entries) == [] <==> EntriesConform(defs, entries)
  {
    if entries != [] {
      var front, last := entries[..|entries| - 1], entries[|entries| - 1];
      NoEntriesFaultsIff(defs, record, front);
      NoEntryFaultsIff(defs, record, last);
      assert entries == front + [last];
      assert last in entries;
    }
  }

  lemma {:induction false} NoRecordFaultsIff(defs: map<string, Def>, records: seq<Record>)
    requires forall id :: id in defs ==> !LacksEnum(defs[id])
    ensures RecordFaults(defs, records) == []
            <==> forall record :: record in records ==> EntriesConform(defs, record.attributes)
  {
    if records != [] {
      var front, last := records[..|records| - 1], records[|records| - 1];
      NoRecordFaultsIff(defs, front);
      NoEntriesFaultsIff(defs, last.id, last.attributes);
      assert records == front + [last];
      assert last in records;
    }
  }

  /** The validator reports nothing exactly when the registry agrees. */
  lemma NoFaultsIffAgreement(defs: seq<Def>, records: seq<Record>)
    ensures Faults(defs, records) == [] <==> Agreement(defs, records)
  {
    NoDefFaultsIff(defs);
    if forall def :: def in defs ==> !LacksEnum(def) {
      NoRecordFaultsIff(ById(defs), records);
    }
  }

  // ---------------------------------------------------------------- the sort

  datatype Key = Missing | Number(number: int) | Word(word: string)

  function Lookup(row: Record, attribute: string): Option<Value> {
    LookupIn(row.attributes, attribute)
  }

  function LookupIn(entries: seq<Entry>, attribute: string): Option<Value> {
    if entries == [] then None
    else if entries[0].key == attribute then Some(entries[0].value)
    else LookupIn(entries[1..], attribute)
  }

  function Join(tags: seq<string>): string {
    if tags == [] then ""
    else if |tags| == 1 then tags[0]
    else tags[0] + "," + Join(tags[1..])
  }

  function SortKey(value: Option<Value>): Key {
    match value
    case None => Missing
    case Some(Flag(flag)) => Number(if flag then 1 else 0)
    case Some(Str(text)) => Word(text)
    case Some(Tags(tags)) => Word(Join(tags))
  }

  function LocaleCompare(leq: (string, string) -> bool, a: string, b: string): int {
    if a == b then 0 else if leq(a, b) then -1 else 1
  }

  /** `String(key)` for the keys that occur: booleans give the numbers 0 and 1. */
  function AsString(key: Key): string
    requires !key.Missing?
  {
    if key.Word? then key.word else if key.number == 0 then "0" else "1"
  }

  function CompareSortKeys(leq: (string, string) -> bool, left: Key, right: Key): int {
    if left.Missing? && right.Missing? then 0
    else if left.Missing? then 1
    else if right.Missing? then -1
    else if left.Number? && right.Number? then left.number - right.number
    else LocaleCompare(leq, AsString(left), AsString(right))
  }

  datatype Direction = Asc | Desc

  function Comparison(leq: (string, string) -> bool, attribute: string, direction: Direction, left: Record,
                      right: Record): int {
    var factor := if direction == Asc then 1 else -1;
    var comparison := factor
      * CompareSortKeys(leq, SortKey(Lookup(left, attribute)), SortKey(Lookup(right, attribute)));
    if comparison != 0 then comparison else LocaleCompare(leq, left.id, right.id)
  }

  function RowOrder(leq: (string, string) -> bool, attribute: string, direction: Direction): (Record, Record) -> bool {
    (a, b) => Comparison(leq, attribute, direction, a, b) <= 0
  }

  function SortOrchestrators(leq: (string, string) -> bool, attribute: string, direction: Direction,
                             rows: seq<Record>): seq<Record> {
    Sort(RowOrder(leq, attribute, direction), rows)
  }

  /** A locale order also puts the digit 0 before the digit 1. */
  ghost predicate Collation(leq: (string, string) -> bool) {
    TotalOrder(leq) && leq("0", "1")
  }

  /** The one scale all keys are compared on: strings, with a missing value last. */
  function Rank(row: Record, attribute: string): Option<string> {
    var key := SortKey(Lookup(row, attribute));
    if key.Missing? then None else Some(AsString(key))
  }

  function CompareRanks(leq: (string, string) -> bool, a: Option<string>, b: Option<string>): int {
    if a == b then 0
    else if a.None? then 1
    else if b.None? then -1
    else LocaleCompare(leq, a.value, b.value)
  }

  function Sign(n: int): int {
    if n < 0 then -1 else if n == 0 then 0 else 1
  }

  /** Comparing numbers as numbers and everything else as strings agrees with comparing
      all keys as strings, so mixed keys do not break transitivity. */
  lemma KeysCompareAsRanks(leq: (string, string) -> bool, attribute: string, a: Record, b: Record)
    requires Collation(leq)
    ensures Sign(CompareSortKeys(leq, SortKey(Lookup(a, attribute)), SortKey(Lookup(b, attribute))))
         == CompareRanks(leq, Rank(a, attribute), Rank(b, attribute))
  {
    assert leq("0", "1") && "0" != "1";
  }

  lemma RanksAreOrdered(leq: (string, string) -> bool, a: Option<string>, b: Option<string>, c: Option<string>)
    requires TotalOrder(leq)
    ensures CompareRanks(leq, a, b) == -CompareRanks(leq, b, a)
    ensures CompareRanks(leq, a, b) == 0 <==> a == b
    ensures CompareRanks(leq, a, b) <= 0 && CompareRanks(leq, b, c) <= 0 ==> CompareRanks(leq, a, c) <= 0
  {
    if a.Some? && b.Some? {
      assert leq(a.value, b.value) || leq(b.value, a.value);
      if c.Some? && leq(a.value, b.value) && leq(b.value, c.value) {
        assert leq(a.value, c.value);
      }
    }
  }

  lemma LocaleIsOrdered(leq: (string, string) -> bool, a: string, b: string, c: string)
    requires TotalOrder(leq)
    ensures LocaleCompare(leq, a, b) == -LocaleCompare(leq, b, a)
    ensures LocaleCompare(leq, a, b) == 0 <==> a == b
    ensures LocaleCompare(leq, a, b) <= 0 && LocaleCompare(leq, b, c) <= 0 ==> LocaleCompare(leq, a, c) <= 0
  {
    RanksAreOrdered(leq, Some(a), Some(b), Some(c));
    assert CompareRanks(leq, Some(a), Some(b)) == LocaleCompare(leq, a, b);
    assert CompareRanks(leq, Some(b), Some(a)) == LocaleCompare(leq, b, a);
    assert CompareRanks(leq, Some(b), Some(c)) == LocaleCompare(leq, b, c);
    assert CompareRanks(leq, Some(a), Some(c)) == LocaleCompare(leq, a, c);
  }

  /** The comparator decides by rank in the given direction, then by id. */
  function Decision(leq: (string, string) -> bool, direction: Direction, rankA: Option<string>, rankB: Option<string>,
                    idA: string, idB: string): int {
    var byRank := if direction == Asc then CompareRanks(leq, rankA, rankB) else CompareRanks(leq, rankB, rankA);
    if byRank != 0 then byRank else LocaleCompare(leq, idA, idB)
  }

  lemma ComparisonIsDecision(leq: (string, string) -> bool, attribute: string, direction: Direction, a: Record,
                             b: Record)
    requires Collation(leq)
    ensures Sign(Comparison(leq, attribute, direction, a, b))
         == Decision(leq, direction, Rank(a, attribute), Rank(b, attribute), a.id, b.id)
  {
    KeysCompareAsRanks(leq, attribute, a, b);
    RanksAreOrdered(leq, Rank(a, attribute), Rank(b, attribute), None);
  }

  lemma DecisionTrans(leq: (string, string) -> bool, direction: Direction,
                      rankA: Option<string>, rankB: Option<string>, rankC: Option<string>,
                      idA: string, idB: string, idC: string)
    requires TotalOrder(leq)
    requires Decision(leq, direction, rankA, rankB, idA, idB) <= 0
             && Decision(leq, direction, rankB, rankC, idB, idC) <= 0
    ensures Decision(leq, direction, rankA, rankC, idA, idC) <= 0
  {
    RanksAreOrdered(leq, rankA, rankB, rankC);
    RanksAreOrdered(leq, rankC, rankB, rankA);
    RanksAreOrdered(leq, rankC, rankA, rankB);
    RanksAreOrdered(leq, rankA, rankC, rankB);
    RanksAreOrdered(leq, rankB, rankC, rankA);
    LocaleIsOrdered(leq, idA, idB, idC);
  }

  /** In both directions the comparator is antisymmetric, ties only rows of one id, and its
      `<=` is a total preorder: a strict total order on rows with distinct ids. */
  lemma ComparatorIsStrictTotalOrder(leq: (string, string) -> bool, attribute: string, direction: Direction)
    requires Collation(leq)
    ensures forall a, b ::
              Sign(Comparison(leq, attribute, direction, a, b)) == -Sign(Comparison(leq, attribute, direction, b, a))
    ensures forall a, b :: Comparison(leq, attribute, direction, a, b) == 0 ==> a.id == b.id
    ensures TotalPreorder(RowOrder(leq, attribute, direction))
  {
    var order := RowOrder(leq, attribute, direction);
    forall a, b
      ensures Sign(Comparison(leq, attribute, direction, a, b)) == -Sign(Comparison(leq, attribute, direction, b, a))
      ensures Comparison(leq, attribute, direction, a, b) == 0 ==> a.id == b.id
    {
      ComparisonIsDecision(leq, attribute, direction, a, b);
      ComparisonIsDecision(leq, attribute, direction, b, a);
      RanksAreOrdered(leq, Rank(a, attribute), Rank(b, attribute), None);
      LocaleIsOrdered(leq, a.id, b.id, "");
    }
    forall a, b ensures order(a, b) || order(b, a) {
      assert Sign(Comparison(leq, attribute, direction, a, b)) == -Sign(Comparison(leq, attribute, direction, b, a));
    }
    forall a, b, c | order(a, b) && order(b, c) ensures order(a, c) {
      ComparisonIsDecision(leq, attribute, direction, a, b);
      ComparisonIsDecision(leq, attribute, direction, b, c);
      ComparisonIsDecision(leq, attribute, direction, a, c);
      DecisionTrans(leq, direction, Rank(a, attribute), Rank(b, attribute), Rank(c, attribute), a.id, b.id, c.id);
    }
  }

  ghost predicate DistinctIds(rows: seq<Record>) {
    forall a, b :: a in rows && b in rows && a.id == b.id ==> a == b
  }

  lemma DistinctIdsNoTies(leq: (string, string) -> bool, attribute: string, direction: Direction, rows: seq<Record>)
    requires Collation(leq) && DistinctIds(rows)
    ensures NoTies(RowOrder(leq, attribute, direction), rows)
  {
    var order := RowOrder(leq, attribute, direction);
    ComparatorIsStrictTotalOrder(leq, attribute, direction);
    forall a, b | a in rows && b in rows && order(a, b) && order(b, a) ensures a == b {
      assert Sign(Comparison(leq, attribute, direction, a, b)) == -Sign(Comparison(leq, attribute, direction, b, a));
    }
  }

  lemma SameMembers(s: seq<Record>, t: seq<Record>)
    requires multiset(s) == multiset(t) && DistinctIds(s)
    ensures DistinctIds(t)
  {
    forall a | a in t ensures a in s {
      assert a in multiset(t);
    }
  }

  /** The sorted result does not depend on the order of the input rows, and so not on the
      sorting algorithm either: any sorted arrangement of the rows is this one. */
  lemma SortIgnoresInputOrder(leq: (string, string) -> bool, attribute: string, direction: Direction,
                              rows: seq<Record>, arranged: seq<Record>)
    requires Collation(leq) && DistinctIds(rows) && multiset(rows) == multiset(arranged)
    ensures SortOrchestrators(leq, attribute, direction, rows) == SortOrchestrators(leq, attribute, direction, arranged)
    ensures Sorted(RowOrder(leq, attribute, direction), arranged)
            ==> SortOrchestrators(leq, attribute, direction, rows) == arranged
  {
    var order := RowOrder(leq, attribute, direction);
    var sorted := SortOrchestrators(leq, attribute, direction, rows);
    ComparatorIsStrictTotalOrder(leq, attribute, direction);
    SortIsSorted(order, rows);
    SortIsSorted(order, arranged);
    SameMembers(rows, sorted);
    DistinctIdsNoTies(leq, attribute, direction, sorted);
    SortedIsUnique(order, sorted, SortOrchestrators(leq, attribute, direction, arranged));
    if Sorted(order, arranged) {
      SortedIsUnique(order, sorted, arranged);
    }
  }

  lemma {:induction false} FilterKeepsSorted(order: (Record, Record) -> bool, rows: seq<Record>, keep: Record -> bool)
    requires Sorted(order, rows)
    ensures Sorted(order, Filter(rows, keep))
  {
    if rows != [] {
      FilterKeepsSorted(order, rows[1..], keep);
      var rest := Filter(rows[1..], keep);
      forall k | 0 <= k < |rest| ensures order(rows[0], rest[k]) {
        assert rest[k] in rows[1..];
        var m :| 0 <= m < |rows[1..]| && rows[1..][m] == rest[k];
        assert rows[m + 1] == rest[k];
      }
    }
  }

  /** Sorting the filtered rows is filtering the sorted rows, for every filter. */
  lemma SortCommutesWithFilter(leq: (string, string) -> bool, attribute: string, direction: Direction,
                               rows: seq<Record>, keep: Record -> bool)
    requires Collation(leq) && DistinctIds(rows)
    ensures SortOrchestrators(leq, attribute, direction, Filter(rows, keep))
         == Filter(SortOrchestrators(leq, attribute, direction, rows), keep)
  {
    var sorted := SortOrchestrators(leq, attribute, direction, rows);
    ComparatorIsStrictTotalOrder(leq, attribute, direction);
    SortIsSorted(RowOrder(leq, attribute, direction), rows);
    FilterKeepsSorted(RowOrder(leq, attribute, direction), sorted, keep);
    forall x ensures multiset(Filter(rows, keep))[x] == multiset(Filter(sorted, keep))[x] {
      FilterCounts(rows, keep, x);
      FilterCounts(sorted, keep, x);
    }
    SortIgnoresInputOrder(leq, attribute, direction, Filter(rows, keep), Filter(sorted, keep));
  }

  function Reverse<T>(s: seq<T>): (r: seq<T>)
    ensures |r| == |s| && forall i :: 0 <= i < |s| ==> r[i] == s[|s| - 1 - i]
    ensures multiset(r) == multiset(s)
  {
    if s == [] then []
    else
      assert s == s[..|s| - 1] + [s[|s| - 1]];
      [s[|s| - 1]] + Reverse(s[..|s| - 1])
  }

  /** No two positions hold rows that rank alike on the attribute. */
  ghost predicate DistinctRanks(rows: seq<Record>, attribute: string) {
    forall i, j :: 0 <= i < j < |rows| ==> Rank(rows[i], attribute) != Rank(rows[j], attribute)
  }

  /** For distinct rows this does not depend on their order. */
  lemma DistinctRanksOfMembers(rows: seq<Record>, attribute: string)
    requires Distinct(rows)
    ensures DistinctRanks(rows, attribute)
       <==> forall a, b :: a in rows && b in rows && Rank(a, attribute) == Rank(b, attribute) ==> a == b
  {
    if DistinctRanks(rows, attribute) {
      forall a, b | a in rows && b in rows && Rank(a, attribute) == Rank(b, attribute) ensures a == b {
        var i, j :| 0 <= i < |rows| && 0 <= j < |rows| && rows[i] == a && rows[j] == b;
        assert i == j;
      }
    }
  }

  lemma DistinctRanksIgnoreOrder(rows: seq<Record>, arranged: seq<Record>, attribute: string)
    requires multiset(rows) == multiset(arranged) && Distinct(rows) && Distinct(arranged)
    ensures DistinctRanks(rows, attribute) <==> DistinctRanks(arranged, attribute)
  {
    DistinctRanksOfMembers(rows, attribute);
    DistinctRanksOfMembers(arranged, attribute);
    forall a ensures a in rows <==> a in arranged {
      assert a in multiset(rows) <==> a in multiset(arranged);
    }
  }

  /** Descending is ascending reversed exactly when no two rows rank alike: ties break by
      ascending id in both directions. */
  lemma DescendingIsReversedIff(leq: (string, string) -> bool, attribute: string, rows: seq<Record>)
    requires Collation(leq) && DistinctIds(rows) && Distinct(rows)
    ensures SortOrchestrators(leq, attribute, Desc, rows) == Reverse(SortOrchestrators(leq, attribute, Asc, rows))
       <==> DistinctRanks(rows, attribute)
  {
    var asc := SortOrchestrators(leq, attribute, Asc, rows);
    ComparatorIsStrictTotalOrder(leq, attribute, Asc);
    ComparatorIsStrictTotalOrder(leq, attribute, Desc);
    SortIsSorted(RowOrder(leq, attribute, Asc), rows);
    SortIsSorted(RowOrder(leq, attribute, Desc), rows);
    DistinctCounts(rows);
    DistinctCounts(asc);
    SameMembers(rows, asc);
    ReversedSortedIff(leq, attribute, asc);
    DistinctRanksIgnoreOrder(rows, asc, attribute);
    SortIgnoresInputOrder(leq, attribute, Desc, rows, Reverse(asc));
  }

  lemma ReversedSortedIff(leq: (string, string) -> bool, attribute: string, asc: seq<Record>)
    requires Collation(leq) && DistinctIds(asc) && Distinct(asc) && Sorted(RowOrder(leq, attribute, Asc), asc)
    ensures Sorted(RowOrder(leq, attribute, Desc), Reverse(asc)) <==> DistinctRanks(asc, attribute)
  {
    if DistinctRanks(asc, attribute) {
      ReversedIsDescending(leq, attribute, asc);
    } else {
      var i, j :| 0 <= i < j < |asc| && Rank(asc[i], attribute) == Rank(asc[j], attribute);
      TieKeepsIdOrder(leq, attribute, asc, Reverse(asc), i, j);
    }
  }

  lemma ReversedIsDescending(leq: (string, string) -> bool, attribute: string, asc: seq<Record>)
    requires Collation(leq) && Sorted(RowOrder(leq, attribute, Asc), asc) && DistinctRanks(asc, attribute)
    ensures Sorted(RowOrder(leq, attribute, Desc), Reverse(asc))
  {
    var desc := Reverse(asc);
    forall i, j | 0 <= i < j < |desc| ensures RowOrder(leq, attribute, Desc)(desc[i], desc[j]) {
      var a, b := desc[j], desc[i];
      assert a == asc[|asc| - 1 - j] && b == asc[|asc| - 1 - i];
      assert RowOrder(leq, attribute, Asc)(a, b);
      ComparisonIsDecision(leq, attribute, Asc, a, b);
      ComparisonIsDecision(leq, attribute, Desc, b, a);
      RanksAreOrdered(leq, Rank(a, attribute), Rank(b, attribute), None);
    }
  }

  lemma TieKeepsIdOrder(leq: (string, string) -> bool, attribute: string, asc: seq<Record>, reversed: seq<Record>,
                        i: nat, j: nat)
    requires Collation(leq) && DistinctIds(asc) && Distinct(asc) && Sorted(RowOrder(leq, attribute, Asc), asc)
    requires i < j < |asc| == |reversed| && Rank(asc[i], attribute) == Rank(asc[j], attribute)
    requires reversed[|asc| - 1 - j] == asc[j] && reversed[|asc| - 1 - i] == asc[i]
    ensures !Sorted(RowOrder(leq, attribute, Desc), reversed)
  {
    assert RowOrder(leq, attribute, Asc)(asc[i], asc[j]);
    TieBreaksById(leq, attribute, asc[i], asc[j]);
    assert !RowOrder(leq, attribute, Desc)(reversed[|asc| - 1 - j], reversed[|asc| - 1 - i]);
  }

  lemma TieBreaksById(leq: (string, string) -> bool, attribute: string, a: Record, b: Record)
    requires Collation(leq) && Rank(a, attribute) == Rank(b, attribute) && a.id != b.id
    requires RowOrder(leq, attribute, Asc)(a, b)
    ensures !RowOrder(leq, attribute, Desc)(b, a)
  {
    ComparisonIsDecision(leq, attribute, Asc, a, b);
    ComparisonIsDecision(leq, attribute, Desc, b, a);
    RanksAreOrdered(leq, Rank(a, attribute), Rank(b, attribute), None);
    LocaleIsOrdered(leq, a.id, b.id, "");
  }
}
