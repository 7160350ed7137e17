/** Joining metric results with a labeled snapshot (src/airi/experiments/validation.py). */
module EvaluationDataset {
  import opened Options
  import opened Sorting
  import opened Evaluation

  /** A cell of a result row. `Other` stands for every remaining Python type, booleans included. */
  datatype Cell = Null | Text(s: string) | Integer(i: int) | Other(tag: string)

  type Record = map<string, Cell>

  datatype Error = DatasetInvalid | DuplicateEntity | LabelInvalid | EvaluationFailed

  datatype Snapshot = Snapshot(entityKey: string, rowCount: nat, checksum: string, partition: string)
  datatype LabelDefinition = LabelDefinition(entityKey: string, labelField: string, goodValue: int, badValue: int)

  datatype Counts = Counts(
    labelEntityCount: nat, matchedCount: nat, labelOnly: nat, metricOnly: nat,
    unknownLabelExcluded: nat, metricNonNullCount: nat)

  datatype Output = Output(rows: seq<Row>, counts: Counts)

  // ------------------------------------------------------------ the checksum

  function Key(row: Record, entityKey: string, show: Cell -> string): string {
    show(if entityKey in row then row[entityKey] else Null)
  }

  function KeyLe(entityKey: string, show: Cell -> string): (Record, Record) -> bool {
    (a: Record, b: Record) => StringLe(Key(a, entityKey, show), Key(b, entityKey, show))
  }

  /** `canonical_hash(sorted(rows, key=...))`, for a hash of the sorted list and Python's `str`. */
  function Checksum(rows: seq<Record>, entityKey: string, show: Cell -> string, hash: seq<Record> -> string): string {
    hash(SortBy(KeyLe(entityKey, show), rows))
  }

  ghost predicate Injective(hash: seq<Record> -> string) {
    forall a, b :: hash(a) == hash(b) ==> a == b
  }

  /** Rows whose entities, null where the column is missing, are shown alike are the same row. */
  ghost predicate KeysIdentifyRows(rows: seq<Record>, entityKey: string, show: Cell -> string) {
    forall i, j | 0 <= i < j < |rows| ::
      show(if entityKey in rows[i] then rows[i][entityKey] else Null)
      == show(if entityKey in rows[j] then rows[j][entityKey] else Null) ==>
        rows[i] == rows[j]
  }

  lemma {:induction false} KeyLeOrder(entityKey: string, show: Cell -> string)
    ensures TotalPreorder(KeyLe(entityKey, show))
    ensures forall a, b :: KeyLe(entityKey, show)(a, b) && KeyLe(entityKey, show)(b, a)
              ==> Key(a, entityKey, show) == Key(b, entityKey, show)
  {
    var le := KeyLe(entityKey, show);
    forall a, b ensures le(a, b) || le(b, a)
                ensures le(a, b) && le(b, a) ==> Key(a, entityKey, show) == Key(b, entityKey, show)
    {
      StringLeTotal(Key(a, entityKey, show), Key(b, entityKey, show));
    }
    forall a, b, c | le(a, b) && le(b, c) ensures le(a, c) {
      StringLeTransitive(Key(a, entityKey, show), Key(b, entityKey, show), Key(c, entityKey, show));
    }
  }

  function HasKey(key: string, entityKey: string, show: Cell -> string): Record -> bool {
    (r: Record) => Key(r, entityKey, show) == key
  }

  lemma {:induction false} StringLeReflexive(s: string)
    ensures StringLe(s, s)
  {
    if s != [] { StringLeReflexive(s[1..]); }
  }

  /** Sorting keeps the rows of one key in their original order. */
  lemma {:induction false} SortKeepsKeyOrder(rows: seq<Record>, key: string, entityKey: string, show: Cell -> string)
    ensures Filter(HasKey(key, entityKey, show), SortBy(KeyLe(entityKey, show), rows))
            == Filter(HasKey(key, entityKey, show), rows)
  {
    StringLeReflexive(key);
    SortStable(KeyLe(entityKey, show), HasKey(key, entityKey, show), rows);
  }

  lemma {:induction false} FilterSplit<T(!new)>(p: T -> bool, s: seq<T>, i: nat)
    requires i < |s| && p(s[i])
    ensures Filter(p, s) == Filter(p, s[..i]) + [s[i]] + Filter(p, s[i + 1..])
  {
    assert s == s[..i] + s[i..];
    FilterAppend(p, s[..i], s[i..]);
    assert s[i..][1..] == s[i + 1..];
  }

  /** Swapping two different rows with one key changes the order of that key's rows. */
  lemma {:induction false} SwapShowsInFilter(p: Record -> bool, rows: seq<Record>, i: nat, j: nat)
    requires i < j < |rows| && p(rows[i]) && p(rows[j]) && rows[i] != rows[j]
    ensures Filter(p, rows) != Filter(p, rows[i := rows[j]][j := rows[i]])
  {
    var swapped := rows[i := rows[j]][j := rows[i]];
    FilterSplit(p, rows, i);
    FilterSplit(p, swapped, i);
    assert rows[..i] == swapped[..i];
    var n := |Filter(p, rows[..i])|;
    assert Filter(p, rows)[n] == rows[i];
    assert Filter(p, swapped)[n] == rows[j];
  }

  /** The checksum is blind to the order of the rows exactly when rows with equal keys are
      equal, in particular when the keys are distinct. */
  lemma {:induction false} ChecksumIgnoresOrderExactly(
      rows: seq<Record>, entityKey: string, show: Cell -> string, hash: seq<Record> -> string)
    requires Injective(hash)
    ensures (forall other | multiset(other) == multiset(rows) ::
               Checksum(other, entityKey, show, hash) == Checksum(rows, entityKey, show, hash))
            <==> KeysIdentifyRows(rows, entityKey, show)
  {
    hide *;
    if KeysIdentifyRows(rows, entityKey, show) {
      forall other | multiset(other) == multiset(rows)
        ensures Checksum(other, entityKey, show, hash) == Checksum(rows, entityKey, show, hash)
      {
        ChecksumBlind(rows, other, entityKey, show, hash);
      }
    } else {
      var other := ChecksumSees(rows, entityKey, show, hash);
    }
  }

  lemma {:induction false} ChecksumBlind(
      rows: seq<Record>, other: seq<Record>, entityKey: string, show: Cell -> string, hash: seq<Record> -> string)
    requires KeysIdentifyRows(rows, entityKey, show) && multiset(other) == multiset(rows)
    ensures Checksum(other, entityKey, show, hash) == Checksum(rows, entityKey, show, hash)
  {
    var le := KeyLe(entityKey, show);
    KeyLeOrder(entityKey, show);
    hide SortBy, StringLe;
    forall i, j | 0 <= i < |rows| && 0 <= j < |rows| && le(rows[i], rows[j]) && le(rows[j], rows[i])
      ensures rows[i] == rows[j]
    {
      assert Key(rows[i], entityKey, show) == Key(rows[j], entityKey, show);
    }
    assert Distinguishes(le, rows);
    hide KeyLe, KeysIdentifyRows, Distinguishes;
    SortIgnoresOrder(le, rows, other);
  }

  /** Exchanging two different rows of one key is visible in the checksum. */
  lemma {:induction false} ChecksumSees(
      rows: seq<Record>, entityKey: string, show: Cell -> string, hash: seq<Record> -> string)
    returns (other: seq<Record>)
    requires !KeysIdentifyRows(rows, entityKey, show) && Injective(hash)
    ensures multiset(other) == multiset(rows)
    ensures Checksum(other, entityKey, show, hash) != Checksum(rows, entityKey, show, hash)
  {
    hide SortBy, Filter;
    var i, j :| 0 <= i < j < |rows| && Key(rows[i], entityKey, show) == Key(rows[j], entityKey, show) && rows[i] != rows[j];
    other := rows[i := rows[j]][j := rows[i]];
    var key := Key(rows[i], entityKey, show);
    assert HasKey(key, entityKey, show)(rows[i]) && HasKey(key, entityKey, show)(rows[j]);
    hide *;
    SwapContents(rows, i, j);
    SwapShowsInFilter(HasKey(key, entityKey, show), rows, i, j);
    SortKeepsKeyOrder(rows, key, entityKey, show);
    SortKeepsKeyOrder(other, key, entityKey, show);
    SortsShow(rows, other, entityKey, show, hash);
  }

  lemma {:induction false} SwapContents<T>(s: seq<T>, i: nat, j: nat)
    requires i < j < |s|
    ensures multiset(s[i := s[j]][j := s[i]]) == multiset(s)
  {
  }

  lemma {:induction false} SortsShow(
      rows: seq<Record>, other: seq<Record>, entityKey: string, show: Cell -> string, hash: seq<Record> -> string)
    requires Injective(hash) && SortBy(KeyLe(entityKey, show), rows) != SortBy(KeyLe(entityKey, show), other)
    ensures Checksum(other, entityKey, show, hash) != Checksum(rows, entityKey, show, hash)
  {
    hide SortBy;
  }

  // ------------------------------------------------------------ reading the snapshot

  /** What a snapshot row contributes: an entity, and a label unless it is unknown. */
  datatype Labeled = Labeled(entity: string, bad: Option<bool>)

  /** The checks on one snapshot row before its entity is compared with earlier ones. */
  function ReadRow(row: Record, entityKey: string, partition: string): Result<string, Error> {
    if !(entityKey in row && "dt" in row) then Err(DatasetInvalid)
    else if !row[entityKey].Text? || row["dt"] != Text(partition) then Err(DatasetInvalid)
    else Ok(row[entityKey].s)
  }

  function ReadLabel(cell: Cell, definition: LabelDefinition): Result<Option<bool>, Error> {
    if cell == Null then Ok(None)
    else if !cell.Integer? || (cell.i != definition.goodValue && cell.i != definition.badValue) then Err(LabelInvalid)
    else Ok(Some(cell.i == definition.badValue))
  }

  function Entities(read: seq<Labeled>): (r: seq<string>)
    ensures |r| == |read| && forall i | 0 <= i < |r| :: r[i] == read[i].entity
  {
    if read == [] then [] else Entities(read[..|read| - 1]) + [read[|read| - 1].entity]
  }

  /** The snapshot rows in order, or the first error met: a missing column, a wrong type or
      partition, a repeated entity, an unusable label, in that order within each row. */
  function ReadDataset(
      rows: seq<Record>, snapshot: Snapshot, definition: LabelDefinition): Result<seq<Labeled>, Error> {
    if rows == [] then Ok([])
    else
      var before := ReadDataset(rows[..|rows| - 1], snapshot, definition);
      var row := rows[|rows| - 1];
      if before.Err? then before
      else if definition.labelField !in row then Err(DatasetInvalid)
      else
        var entity := ReadRow(row, snapshot.entityKey, snapshot.partition);
        if entity.Err? then Err(entity.error)
        else if entity.value in Entities(before.value) then Err(DuplicateEntity)
        else
          var value := ReadLabel(row[definition.labelField], definition);
          if value.Err? then Err(value.error)
          else Ok(before.value + [Labeled(entity.value, value.value)])
  }

  /** The metric rows as a dictionary from entity to value, or the first error met. */
  function ReadMetrics(rows: seq<Record>, metricName: string, parse: Cell -> Option<real>)
    : Result<map<Cell, Option<real>>, Error>
  {
    if rows == [] then Ok(map[])
    else
      var before := ReadMetrics(rows[..|rows| - 1], metricName, parse);
      var row := rows[|rows| - 1];
      if before.Err? then before
      else if "entity_id" !in row || metricName !in row then Err(EvaluationFailed)
      else if row["entity_id"] in before.value then Err(DuplicateEntity)
      else if row[metricName] == Null then Ok(before.value[row["entity_id"] := None])
      else if parse(row[metricName]).None? then Err(EvaluationFailed)
      else Ok(before.value[row["entity_id"] := parse(row[metricName])])
  }

  function MetricOf(metrics: map<Cell, Option<real>>, entity: string): Option<real> {
    if Text(entity) in metrics then metrics[Text(entity)] else None
  }

  /** One evaluation row per entity with a known label, in snapshot order. */
  function LabeledRows(read: seq<Labeled>, metrics: map<Cell, Option<real>>): seq<Row> {
    if read == [] then []
    else
      var last := read[|read| - 1];
      LabeledRows(read[..|read| - 1], metrics)
      + (if last.bad.Some? then [Row(MetricOf(metrics, last.entity), last.bad.value)] else [])
  }

  /** `labels.keys()`, as cells. */
  function LabelKeys(read: seq<Labeled>): set<Cell> {
    set l | l in read && l.bad.Some? :: Text(l.entity)
  }

  function NonNull(read: seq<Labeled>, metrics: map<Cell, Option<real>>): set<Cell> {
    set k | k in LabelKeys(read) * metrics.Keys && metrics[k].Some?
  }

  /** `evaluation_dataset`: the joined rows and the bookkeeping of the join. */
  function Join(
      metricRows: seq<Record>, datasetRows: seq<Record>, metricName: string, snapshot: Snapshot, definition: LabelDefinition,
      show: Cell -> string, hash: seq<Record> -> string, parse: Cell -> Option<real>): Result<Output, Error>
  {
    if |datasetRows| != snapshot.rowCount
       || Checksum(datasetRows, snapshot.entityKey, show, hash) != snapshot.checksum
    then Err(DatasetInvalid)
    else if definition.entityKey != snapshot.entityKey then Err(DatasetInvalid)
    else
      var read := ReadDataset(datasetRows, snapshot, definition);
      if read.Err? then Err(read.error)
      else
        var metrics := ReadMetrics(metricRows, metricName, parse);
        if metrics.Err? then Err(metrics.error)
        else
          var labels, m := LabelKeys(read.value), metrics.value;
          UnknownLabels(datasetRows, snapshot, definition);
          Ok(Output(LabeledRows(read.value, m),
                    Counts(|labels|, |labels * m.Keys|, |labels - m.Keys|, |m.Keys - labels|,
                           |datasetRows| - |labels|, |NonNull(read.value, m)|)))
  }

  // ------------------------------------------------------------ conservation

  ghost predicate DistinctEntities(read: seq<Labeled>) {
    forall i, j | 0 <= i < j < |read| :: read[i].entity != read[j].entity
  }

  lemma {:induction false} ReadLength(rows: seq<Record>, snapshot: Snapshot, definition: LabelDefinition)
    ensures var read := ReadDataset(rows, snapshot, definition);
            read.Ok? ==> |read.value| == |rows| && DistinctEntities(read.value)
  {
    var read := ReadDataset(rows, snapshot, definition);
    if rows != [] && read.Ok? {
      ReadLength(rows[..|rows| - 1], snapshot, definition);
      var before := ReadDataset(rows[..|rows| - 1], snapshot, definition).value;
      forall i | 0 <= i < |before| ensures before[i].entity != read.value[|before|].entity {
        assert Entities(before)[i] == before[i].entity;
      }
    }
  }

  lemma {:induction false} NoLabels()
    ensures LabelKeys([]) == {}
  {
  }

  lemma {:induction false} LabelKeysStep(read: seq<Labeled>)
    requires read != []
    ensures var last := read[|read| - 1];
            LabelKeys(read) == LabelKeys(read[..|read| - 1]) + (if last.bad.Some? then {Text(last.entity)} else {})
  {
    var front, last := read[..|read| - 1], read[|read| - 1];
    assert read == front + [last];
    forall k ensures k in LabelKeys(read)
                     <==> k in LabelKeys(front) + (if last.bad.Some? then {Text(last.entity)} else {})
    {
      if k in LabelKeys(read) {
        var l :| l in read && l.bad.Some? && k == Text(l.entity);
        assert l in front || l == last;
      }
    }
  }

  lemma {:induction false} NonNullStep(read: seq<Labeled>, metrics: map<Cell, Option<real>>)
    requires read != [] && DistinctEntities(read)
    ensures var front, last := read[..|read| - 1], read[|read| - 1];
            && Text(last.entity) !in LabelKeys(front)
            && NonNull(read, metrics)
               == NonNull(front, metrics)
                  + (if last.bad.Some? && MetricOf(metrics, last.entity).Some? then {Text(last.entity)} else {})
  {
    LabelKeysStep(read);
  }

  /** With distinct entities, every known label becomes one key and one evaluation row. */
  lemma {:induction false} LabelKeysCount(read: seq<Labeled>, metrics: map<Cell, Option<real>>)
    requires DistinctEntities(read)
    ensures |LabelKeys(read)| == |LabeledRows(read, metrics)| <= |read|
    ensures |NonNull(read, metrics)| == |Values(LabeledRows(read, metrics))|
  {
    if read != [] {
      var front, last := read[..|read| - 1], read[|read| - 1];
      LabelKeysCount(front, metrics);
      LabelKeysStep(read);
      NonNullStep(read, metrics);
      assert Text(last.entity) !in NonNull(front, metrics);
      hide NonNull, LabelKeys, MetricOf;
      if last.bad.Some? {
        ValuesAppend(LabeledRows(front, metrics), Row(MetricOf(metrics, last.entity), last.bad.value));
      } else {
        assert LabeledRows(read, metrics) == LabeledRows(front, metrics);
      }
    }
  }

  lemma {:induction false} ValuesAppend(rows: seq<Row>, row: Row)
    ensures Values(rows + [row]) == Values(rows) + (if row.value.Some? then [row.value.value] else [])
  {
    if rows == [] {
      assert rows + [row] == [row];
    } else {
      assert (rows + [row])[1..] == rows[1..] + [row];
      ValuesAppend(rows[1..], row);
    }
  }

  lemma {:induction false} UnknownLabels(rows: seq<Record>, snapshot: Snapshot, definition: LabelDefinition)
    ensures var read := ReadDataset(rows, snapshot, definition);
            read.Ok? ==> |LabelKeys(read.value)| <= |rows|
  {
    ReadLength(rows, snapshot, definition);
    var read := ReadDataset(rows, snapshot, definition);
    if read.Ok? { LabelKeysCount(read.value, map[]); }
  }

  lemma {:induction false} MetricsCount(rows: seq<Record>, metricName: string, parse: Cell -> Option<real>)
    ensures var metrics := ReadMetrics(rows, metricName, parse); metrics.Ok? ==> |metrics.value| == |rows|
  {
    if rows != [] {
      MetricsCount(rows[..|rows| - 1], metricName, parse);
    }
  }

  lemma {:induction false} SplitCardinality<T>(a: set<T>, b: set<T>)
    ensures |a| == |a * b| + |a - b|
  {
    assert a == a * b + (a - b);
  }

  /** The join loses and invents nothing: matched and label-only entities are the labels,
      matched and metric-only entities are the metric rows, labels and excluded rows are the
      snapshot rows, there is one evaluation row per label, and the calculator's coverage of
      these rows is the reported non-null count over the label count. */
  lemma {:induction false} JoinConserves(
      metricRows: seq<Record>, datasetRows: seq<Record>, metricName: string, snapshot: Snapshot, definition: LabelDefinition,
      show: Cell -> string, hash: seq<Record> -> string, parse: Cell -> Option<real>)
    ensures var joined := Join(metricRows, datasetRows, metricName, snapshot, definition, show, hash, parse);
            joined.Ok? ==>
              var counts, rows := joined.value.counts, joined.value.rows;
              && counts.matchedCount + counts.labelOnly == counts.labelEntityCount == |rows|
              && counts.matchedCount + counts.metricOnly == |metricRows|
              && counts.labelEntityCount + counts.unknownLabelExcluded == |datasetRows| == snapshot.rowCount
              && counts.metricNonNullCount == |Values(rows)| <= counts.matchedCount
              && Ratio(|SortedValues(rows)|, |rows|) == Ratio(counts.metricNonNullCount, counts.labelEntityCount)
  {
    var joined := Join(metricRows, datasetRows, metricName, snapshot, definition, show, hash, parse);
    if joined.Ok? {
      var read := ReadDataset(datasetRows, snapshot, definition).value;
      var metrics := ReadMetrics(metricRows, metricName, parse).value;
      ReadLength(datasetRows, snapshot, definition);
      LabelKeysCount(read, metrics);
      MetricsCount(metricRows, metricName, parse);
      SplitCardinality(LabelKeys(read), metrics.Keys);
      SplitCardinality(metrics.Keys, LabelKeys(read));
      assert metrics.Keys * LabelKeys(read) == LabelKeys(read) * metrics.Keys;
      NonNullMatched(read, metrics);
      RealLeOrder();
      SortedPermutation(RealLe, Values(joined.value.rows));
    }
  }

  lemma {:induction false} NonNullMatched(read: seq<Labeled>, metrics: map<Cell, Option<real>>)
    ensures |NonNull(read, metrics)| <= |LabelKeys(read) * metrics.Keys|
  {
    SplitCardinality(LabelKeys(read) * metrics.Keys, NonNull(read, metrics));
    assert NonNull(read, metrics) == LabelKeys(read) * metrics.Keys * NonNull(read, metrics);
  }

  // ------------------------------------------------------------ the join on the records themselves

  /** A snapshot row with all its columns, in the partition, whose entity is a text. */
  ghost predicate WellFormed(row: Record, snapshot: Snapshot, definition: LabelDefinition) {
    && snapshot.entityKey in row && definition.labelField in row && "dt" in row
    && row[snapshot.entityKey].Text? && row["dt"] == Text(snapshot.partition)
  }

  ghost predicate KnowsLabel(row: Record, definition: LabelDefinition) {
    definition.labelField in row
    && row[definition.labelField] in {Null, Integer(definition.goodValue), Integer(definition.badValue)}
  }

  ghost predicate NewEntity(rows: seq<Record>, row: Record, entityKey: string) {
    entityKey in row && forall other | other in rows && entityKey in other :: other[entityKey] != row[entityKey]
  }

  /** A snapshot that can be joined: well-formed rows of different entities with usable labels. */
  ghost predicate SoundDataset(rows: seq<Record>, snapshot: Snapshot, definition: LabelDefinition) {
    forall i | 0 <= i < |rows| ::
      && WellFormed(rows[i], snapshot, definition) && KnowsLabel(rows[i], definition)
      && NewEntity(rows[..i], rows[i], snapshot.entityKey)
  }

  /** The first row that spoils the snapshot, and what is wrong with it: its columns, then its entity,
      then its label. */
  ghost predicate FirstFault(rows: seq<Record>, i: nat, snapshot: Snapshot, definition: LabelDefinition, e: Error) {
    && i < |rows| && SoundDataset(rows[..i], snapshot, definition)
    && (if !WellFormed(rows[i], snapshot, definition) then e == DatasetInvalid
        else if !NewEntity(rows[..i], rows[i], snapshot.entityKey) then e == DuplicateEntity
        else !KnowsLabel(rows[i], definition) && e == LabelInvalid)
  }

  /** A reading has the row's entity, and is bad exactly if the label is the bad value. */
  ghost predicate ReadsRow(l: Labeled, row: Record, snapshot: Snapshot, definition: LabelDefinition)
    requires WellFormed(row, snapshot, definition)
  {
    && Text(l.entity) == row[snapshot.entityKey]
    && (l.bad == None <==> row[definition.labelField] == Null)
    && (l.bad.Some? ==> (l.bad.value <==> row[definition.labelField] == Integer(definition.badValue)))
  }

  ghost predicate ReadsRows(read: seq<Labeled>, rows: seq<Record>, snapshot: Snapshot, definition: LabelDefinition) {
    |read| == |rows| && forall i | 0 <= i < |rows| ::
      WellFormed(rows[i], snapshot, definition) && ReadsRow(read[i], rows[i], snapshot, definition)
  }

  lemma {:induction false} SoundNext(rows: seq<Record>, row: Record, snapshot: Snapshot, definition: LabelDefinition)
    ensures SoundDataset(rows + [row], snapshot, definition)
            <==> && SoundDataset(rows, snapshot, definition) && WellFormed(row, snapshot, definition)
                 && KnowsLabel(row, definition) && NewEntity(rows, row, snapshot.entityKey)
  {
    hide WellFormed, KnowsLabel, NewEntity;
    var all := rows + [row];
    assert all[..|rows|] == rows;
    assert forall i | 0 <= i < |rows| :: all[i] == rows[i] && all[..i] == rows[..i];
    if SoundDataset(all, snapshot, definition) {
      assert WellFormed(all[|rows|], snapshot, definition);
      forall i | 0 <= i < |rows|
        ensures && WellFormed(rows[i], snapshot, definition) && KnowsLabel(rows[i], definition)
                && NewEntity(rows[..i], rows[i], snapshot.entityKey)
      {
        assert WellFormed(all[i], snapshot, definition);
      }
    }
  }

  lemma {:induction false} KnownEntity(
      read: seq<Labeled>, rows: seq<Record>, row: Record, snapshot: Snapshot, definition: LabelDefinition)
    requires ReadsRows(read, rows, snapshot, definition) && WellFormed(row, snapshot, definition)
    ensures row[snapshot.entityKey].s in Entities(read) <==> !NewEntity(rows, row, snapshot.entityKey)
  {
    var entity := row[snapshot.entityKey].s;
    if entity in Entities(read) {
      var i :| 0 <= i < |read| && Entities(read)[i] == entity;
      assert rows[i] in rows && rows[i][snapshot.entityKey] == row[snapshot.entityKey];
    }
    if !NewEntity(rows, row, snapshot.entityKey) {
      var other :| other in rows && snapshot.entityKey in other && other[snapshot.entityKey] == row[snapshot.entityKey];
      var i :| 0 <= i < |rows| && rows[i] == other;
      assert Entities(read)[i] == entity;
    }
  }

  /** Reading one more row: what it adds, or what is wrong with it. */
  lemma {:induction false} RowRead(
      before: seq<Labeled>, rows: seq<Record>, row: Record, snapshot: Snapshot, definition: LabelDefinition)
    requires ReadDataset(rows, snapshot, definition) == Ok(before) && ReadsRows(before, rows, snapshot, definition)
    ensures var read := ReadDataset(rows + [row], snapshot, definition);
            if !WellFormed(row, snapshot, definition) then read == Err(DatasetInvalid)
            else if !NewEntity(rows, row, snapshot.entityKey) then read == Err(DuplicateEntity)
            else if !KnowsLabel(row, definition) then read == Err(LabelInvalid)
            else read.Ok? && ReadsRows(read.value, rows + [row], snapshot, definition)
  {
    assert (rows + [row])[..|rows + [row]| - 1] == rows;
    RowParses(row, snapshot, definition);
    if WellFormed(row, snapshot, definition) {
      KnownEntity(before, rows, row, snapshot, definition);
    }
    hide NewEntity, Entities, WellFormed, KnowsLabel, ReadRow, ReadLabel, ReadsRow;
  }

  /** The checks on the row alone, and what it is read as. */
  lemma {:induction false} RowParses(row: Record, snapshot: Snapshot, definition: LabelDefinition)
    ensures var entity := ReadRow(row, snapshot.entityKey, snapshot.partition);
            && (WellFormed(row, snapshot, definition) <==> definition.labelField in row && entity.Ok?)
            && (entity.Err? ==> entity.error == DatasetInvalid)
            && (WellFormed(row, snapshot, definition) ==>
                  && snapshot.entityKey in row && row[snapshot.entityKey] == Text(entity.value)
                  && var read := ReadLabel(row[definition.labelField], definition);
                     if KnowsLabel(row, definition) then
                       read.Ok? && ReadsRow(Labeled(entity.value, read.value), row, snapshot, definition)
                     else read == Err(LabelInvalid))
  {
  }

  lemma {:induction false} FaultStays(
      rows: seq<Record>, row: Record, i: nat, snapshot: Snapshot, definition: LabelDefinition, e: Error)
    requires FirstFault(rows, i, snapshot, definition, e)
    ensures FirstFault(rows + [row], i, snapshot, definition, e)
  {
    assert (rows + [row])[..i] == rows[..i];
  }

  /** The snapshot is read exactly if it is sound, row by row as it stands, and otherwise its first
      fault is reported. */
  lemma {:induction false} DatasetRead(rows: seq<Record>, snapshot: Snapshot, definition: LabelDefinition)
    ensures var read := ReadDataset(rows, snapshot, definition);
            if SoundDataset(rows, snapshot, definition) then read.Ok? && ReadsRows(read.value, rows, snapshot, definition)
            else read.Err? && exists i: nat :: FirstFault(rows, i, snapshot, definition, read.error)
  {
    if rows != [] {
      hide WellFormed, KnowsLabel, NewEntity, SoundDataset, ReadsRows, FirstFault;
      var front, row := rows[..|rows| - 1], rows[|rows| - 1];
      assert rows == front + [row];
      DatasetRead(front, snapshot, definition);
      SoundNext(front, row, snapshot, definition);
      var before := ReadDataset(front, snapshot, definition);
      if before.Ok? {
        RowRead(before.value, front, row, snapshot, definition);
        LastFault(front, row, snapshot, definition);
      } else {
        var i: nat :| FirstFault(front, i, snapshot, definition, before.error);
        FaultStays(front, row, i, snapshot, definition, before.error);
      }
    }
  }

  lemma {:induction false} LastFault(rows: seq<Record>, row: Record, snapshot: Snapshot, definition: LabelDefinition)
    requires SoundDataset(rows, snapshot, definition)
    ensures var all := rows + [row];
            if !WellFormed(row, snapshot, definition) then FirstFault(all, |rows|, snapshot, definition, DatasetInvalid)
            else if !NewEntity(rows, row, snapshot.entityKey) then
              FirstFault(all, |rows|, snapshot, definition, DuplicateEntity)
            else KnowsLabel(row, definition) || FirstFault(all, |rows|, snapshot, definition, LabelInvalid)
  {
    assert (rows + [row])[..|rows|] == rows;
    hide WellFormed, KnowsLabel, NewEntity, SoundDataset;
  }

  ghost predicate HasMetric(row: Record, metricName: string) { "entity_id" in row && metricName in row }

  /** A metric value that is null or a number. */
  ghost predicate Parses(row: Record, metricName: string, parse: Cell -> Option<real>) {
    metricName in row && (row[metricName] == Null || parse(row[metricName]).Some?)
  }

  /** Metric rows that can be joined: of different entities, each value null or a number. */
  ghost predicate SoundMetrics(rows: seq<Record>, metricName: string, parse: Cell -> Option<real>) {
    forall i | 0 <= i < |rows| ::
      HasMetric(rows[i], metricName) && Parses(rows[i], metricName, parse) && NewEntity(rows[..i], rows[i], "entity_id")
  }

  ghost predicate FirstMetricFault(
      rows: seq<Record>, i: nat, metricName: string, parse: Cell -> Option<real>, e: Error)
  {
    && i < |rows| && SoundMetrics(rows[..i], metricName, parse)
    && (if !HasMetric(rows[i], metricName) then e == EvaluationFailed
        else if !NewEntity(rows[..i], rows[i], "entity_id") then e == DuplicateEntity
        else !Parses(rows[i], metricName, parse) && e == EvaluationFailed)
  }

  /** The dictionary holds the value of every row under its entity, and nothing else. */
  ghost predicate Collects(
      metrics: map<Cell, Option<real>>, rows: seq<Record>, metricName: string, parse: Cell -> Option<real>)
  {
    && (forall row | row in rows ::
          && HasMetric(row, metricName) && Parses(row, metricName, parse) && row["entity_id"] in metrics
          && metrics[row["entity_id"]] == if row[metricName] == Null then None else parse(row[metricName]))
    && (forall k | k in metrics :: exists row :: row in rows && "entity_id" in row && row["entity_id"] == k)
  }

  lemma {:induction false} SoundMetricsNext(
      rows: seq<Record>, row: Record, metricName: string, parse: Cell -> Option<real>)
    ensures SoundMetrics(rows + [row], metricName, parse)
            <==> && SoundMetrics(rows, metricName, parse) && HasMetric(row, metricName)
                 && Parses(row, metricName, parse) && NewEntity(rows, row, "entity_id")
  {
    hide HasMetric, Parses, NewEntity;
    var all := rows + [row];
    assert all[..|rows|] == rows;
    assert forall i | 0 <= i < |rows| :: all[i] == rows[i] && all[..i] == rows[..i];
    if SoundMetrics(all, metricName, parse) {
      assert HasMetric(all[|rows|], metricName);
      forall i | 0 <= i < |rows|
        ensures && HasMetric(rows[i], metricName) && Parses(rows[i], metricName, parse)
                && NewEntity(rows[..i], rows[i], "entity_id")
      {
        assert HasMetric(all[i], metricName);
      }
    }
  }

  lemma {:induction false} MetricRowRead(
      metrics: map<Cell, Option<real>>, rows: seq<Record>, row: Record, metricName: string, parse: Cell -> Option<real>)
    requires ReadMetrics(rows, metricName, parse) == Ok(metrics) && Collects(metrics, rows, metricName, parse)
    ensures var read := ReadMetrics(rows + [row], metricName, parse);
            if !HasMetric(row, metricName) then read == Err(EvaluationFailed)
            else if !NewEntity(rows, row, "entity_id") then read == Err(DuplicateEntity)
            else if !Parses(row, metricName, parse) then read == Err(EvaluationFailed)
            else read.Ok? && Collects(read.value, rows + [row], metricName, parse)
  {
    assert (rows + [row])[..|rows + [row]| - 1] == rows;
    if HasMetric(row, metricName) {
      assert row["entity_id"] in metrics <==> !NewEntity(rows, row, "entity_id");
      hide Collects, NewEntity;
      if NewEntity(rows, row, "entity_id") && Parses(row, metricName, parse) {
        CollectsNext(metrics, rows, row, metricName, parse);
      }
    }
  }

  lemma {:induction false} CollectsNext(
      metrics: map<Cell, Option<real>>, rows: seq<Record>, row: Record, metricName: string, parse: Cell -> Option<real>)
    requires Collects(metrics, rows, metricName, parse) && NewEntity(rows, row, "entity_id")
    requires HasMetric(row, metricName) && Parses(row, metricName, parse)
    ensures var value := if row[metricName] == Null then None else parse(row[metricName]);
            Collects(metrics[row["entity_id"] := value], rows + [row], metricName, parse)
  {
    hide Parses;
    var all := rows + [row];
    assert row in all && forall other | other in rows :: other in all;
  }

  lemma {:induction false} LastMetricFault(
      rows: seq<Record>, row: Record, metricName: string, parse: Cell -> Option<real>)
    requires SoundMetrics(rows, metricName, parse)
    ensures var all := rows + [row];
            if !HasMetric(row, metricName) then FirstMetricFault(all, |rows|, metricName, parse, EvaluationFailed)
            else if !NewEntity(rows, row, "entity_id") then FirstMetricFault(all, |rows|, metricName, parse, DuplicateEntity)
            else Parses(row, metricName, parse) || FirstMetricFault(all, |rows|, metricName, parse, EvaluationFailed)
  {
    assert (rows + [row])[..|rows|] == rows;
    hide HasMetric, Parses, NewEntity, SoundMetrics;
  }

  lemma {:induction false} MetricFaultStays(
      rows: seq<Record>, row: Record, i: nat, metricName: string, parse: Cell -> Option<real>, e: Error)
    requires FirstMetricFault(rows, i, metricName, parse, e)
    ensures FirstMetricFault(rows + [row], i, metricName, parse, e)
  {
    assert (rows + [row])[..i] == rows[..i];
    hide HasMetric, Parses, NewEntity, SoundMetrics;
  }

  /** The metric rows are read exactly if they are sound, and otherwise their first fault is reported. */
  lemma {:induction false} MetricsRead(rows: seq<Record>, metricName: string, parse: Cell -> Option<real>)
    ensures var read := ReadMetrics(rows, metricName, parse);
            if SoundMetrics(rows, metricName, parse) then read.Ok? && Collects(read.value, rows, metricName, parse)
            else read.Err? && exists i: nat :: FirstMetricFault(rows, i, metricName, parse, read.error)
  {
    if rows != [] {
      hide HasMetric, Parses, NewEntity, SoundMetrics, Collects, FirstMetricFault;
      var front, row := rows[..|rows| - 1], rows[|rows| - 1];
      assert rows == front + [row];
      MetricsRead(front, metricName, parse);
      SoundMetricsNext(front, row, metricName, parse);
      var before := ReadMetrics(front, metricName, parse);
      if before.Ok? {
        MetricRowRead(before.value, front, row, metricName, parse);
        LastMetricFault(front, row, metricName, parse);
      } else {
        var i: nat :| FirstMetricFault(front, i, metricName, parse, before.error);
        MetricFaultStays(front, row, i, metricName, parse, before.error);
      }
    }
  }

  function HasLabel(definition: LabelDefinition): Record -> bool {
    (row: Record) => definition.labelField in row && row[definition.labelField] != Null
  }

  /** Some metric row is about the row's entity. */
  function HasMatch(metricRows: seq<Record>, entityKey: string): Record -> bool {
    (row: Record) => entityKey in row
                     && exists m | m in metricRows :: "entity_id" in m && m["entity_id"] == row[entityKey]
  }

  /** The value of an entity: what its metric row holds, and none if that is null or there is no row. */
  ghost predicate MeasuredAs(
      value: Option<real>, entity: Cell, metricRows: seq<Record>, metricName: string, parse: Cell -> Option<real>)
  {
    && (forall m | m in metricRows && HasMetric(m, metricName) && m["entity_id"] == entity ::
          value == if m[metricName] == Null then None else parse(m[metricName]))
    && ((forall m | m in metricRows && HasMetric(m, metricName) :: m["entity_id"] != entity) ==> value == None)
  }

  /** One evaluation row for each labelled record, in snapshot order: bad exactly if the label is the
      bad value, and with the value of the record's entity. */
  ghost predicate RowsOf(
      rows: seq<Row>, labelled: seq<Record>, metricRows: seq<Record>, metricName: string, snapshot: Snapshot,
      definition: LabelDefinition, parse: Cell -> Option<real>)
  {
    |rows| == |labelled| && forall i | 0 <= i < |rows| ::
      && definition.labelField in labelled[i] && snapshot.entityKey in labelled[i]
      && (rows[i].bad <==> labelled[i][definition.labelField] == Integer(definition.badValue))
      && MeasuredAs(rows[i].value, labelled[i][snapshot.entityKey], metricRows, metricName, parse)
  }

  lemma {:induction false} MetricMeasured(
      metrics: map<Cell, Option<real>>, entity: string, metricRows: seq<Record>, metricName: string, parse: Cell -> Option<real>)
    requires Collects(metrics, metricRows, metricName, parse)
    ensures MeasuredAs(MetricOf(metrics, entity), Text(entity), metricRows, metricName, parse)
    ensures Text(entity) in metrics <==> exists m | m in metricRows :: "entity_id" in m && m["entity_id"] == Text(entity)
  {
  }

  /** The evaluation rows, one labelled record at a time. */
  lemma {:induction false} RowsJoined(
      read: seq<Labeled>, metrics: map<Cell, Option<real>>, datasetRows: seq<Record>, metricRows: seq<Record>,
      metricName: string, snapshot: Snapshot, definition: LabelDefinition, parse: Cell -> Option<real>)
    requires ReadsRows(read, datasetRows, snapshot, definition) && DistinctEntities(read)
    requires Collects(metrics, metricRows, metricName, parse)
    ensures RowsOf(LabeledRows(read, metrics), Filter(HasLabel(definition), datasetRows), metricRows, metricName,
                   snapshot, definition, parse)
    decreases |read|
  {
    if read == [] {
      assert datasetRows == [];
    } else {
      FrontRead(read, datasetRows, snapshot, definition);
      hide *;
      var n := |read| - 1;
      var front, last, row, seen := read[..n], read[n], datasetRows[n], datasetRows[..n];
      RowsJoined(front, metrics, seen, metricRows, metricName, snapshot, definition, parse);
      LabelledNext(datasetRows, definition);
      LabelOfLast(read, datasetRows, snapshot, definition);
      LabeledRowsNext(read, metrics);
      MetricMeasured(metrics, last.entity, metricRows, metricName, parse);
      if last.bad.Some? {
        RowsNext(LabeledRows(front, metrics), Filter(HasLabel(definition), seen),
                 Row(MetricOf(metrics, last.entity), last.bad.value), row, metricRows, metricName, snapshot, definition, parse);
      }
    }
  }

  /** The number of matched entities, one labelled record at a time. */
  lemma {:induction false} MatchesCounted(
      read: seq<Labeled>, metrics: map<Cell, Option<real>>, datasetRows: seq<Record>, metricRows: seq<Record>,
      metricName: string, snapshot: Snapshot, definition: LabelDefinition, parse: Cell -> Option<real>)
    requires ReadsRows(read, datasetRows, snapshot, definition) && DistinctEntities(read)
    requires Collects(metrics, metricRows, metricName, parse)
    ensures |LabelKeys(read) * metrics.Keys|
            == Count(HasMatch(metricRows, snapshot.entityKey), Filter(HasLabel(definition), datasetRows))
    decreases |read|
  {
    if read == [] {
      assert datasetRows == [];
      NothingLabelled(definition, metricRows, snapshot.entityKey);
      NoLabels();
      assert {} * metrics.Keys == {};
    } else {
      FrontRead(read, datasetRows, snapshot, definition);
      hide *;
      var n := |read| - 1;
      var last, row, seen := read[n], datasetRows[n], datasetRows[..n];
      MatchesCounted(read[..n], metrics, seen, metricRows, metricName, snapshot, definition, parse);
      LabelledNext(datasetRows, definition);
      LabelOfLast(read, datasetRows, snapshot, definition);
      MatchedNext(read, metrics);
      CountAppend(HasMatch(metricRows, snapshot.entityKey), Filter(HasLabel(definition), seen), [row]);
      MatchOfLast(metrics, row, last.entity, metricRows, metricName, snapshot.entityKey, parse);
    }
  }

  lemma {:induction false} NothingLabelled(definition: LabelDefinition, metricRows: seq<Record>, entityKey: string)
    ensures Filter(HasLabel(definition), []) == [] && Count(HasMatch(metricRows, entityKey), []) == 0
  {
  }

  lemma {:induction false} LabelledNext(rows: seq<Record>, definition: LabelDefinition)
    requires rows != []
    ensures var seen, last := rows[..|rows| - 1], rows[|rows| - 1];
            Filter(HasLabel(definition), rows)
            == if HasLabel(definition)(last) then Filter(HasLabel(definition), seen) + [last]
               else Filter(HasLabel(definition), seen)
  {
    var seen, last := rows[..|rows| - 1], rows[|rows| - 1];
    assert rows == seen + [last];
    FilterAppend(HasLabel(definition), seen, [last]);
    assert Filter(HasLabel(definition), seen) + [] == Filter(HasLabel(definition), seen);
    hide HasLabel;
  }

  lemma {:induction false} FrontRead(
      read: seq<Labeled>, rows: seq<Record>, snapshot: Snapshot, definition: LabelDefinition)
    requires read != [] && ReadsRows(read, rows, snapshot, definition) && DistinctEntities(read)
    ensures |rows| == |read|
    ensures ReadsRows(read[..|read| - 1], rows[..|read| - 1], snapshot, definition) && DistinctEntities(read[..|read| - 1])
  {
    hide ReadsRow, WellFormed;
  }

  lemma {:induction false} LabelOfLast(
      read: seq<Labeled>, rows: seq<Record>, snapshot: Snapshot, definition: LabelDefinition)
    requires read != [] && ReadsRows(read, rows, snapshot, definition)
    ensures var last, row := read[|read| - 1], rows[|read| - 1];
            && snapshot.entityKey in row && row[snapshot.entityKey] == Text(last.entity) && definition.labelField in row
            && (HasLabel(definition)(row) <==> last.bad.Some?)
            && (last.bad.Some? ==> (last.bad.value <==> row[definition.labelField] == Integer(definition.badValue)))
  {
    assert WellFormed(rows[|read| - 1], snapshot, definition);
  }

  lemma {:induction false} LabeledRowsNext(read: seq<Labeled>, metrics: map<Cell, Option<real>>)
    requires read != []
    ensures var front, last := read[..|read| - 1], read[|read| - 1];
            LabeledRows(read, metrics)
            == if last.bad.Some? then LabeledRows(front, metrics) + [Row(MetricOf(metrics, last.entity), last.bad.value)]
               else LabeledRows(front, metrics)
  {
  }

  lemma {:induction false} MatchOfLast(
      metrics: map<Cell, Option<real>>, row: Record, entity: string, metricRows: seq<Record>, metricName: string,
      entityKey: string, parse: Cell -> Option<real>)
    requires Collects(metrics, metricRows, metricName, parse) && entityKey in row && row[entityKey] == Text(entity)
    ensures Count(HasMatch(metricRows, entityKey), [row]) == if Text(entity) in metrics then 1 else 0
    ensures Count(HasMatch(metricRows, entityKey), []) == 0
  {
    MetricMeasured(metrics, entity, metricRows, metricName, parse);
    hide Collects, MeasuredAs, MetricOf;
    assert [row][1..] == [];
  }

  lemma {:induction false} RowsNext(
      rows: seq<Row>, labelled: seq<Record>, last: Row, row: Record, metricRows: seq<Record>, metricName: string,
      snapshot: Snapshot, definition: LabelDefinition, parse: Cell -> Option<real>)
    requires RowsOf(rows, labelled, metricRows, metricName, snapshot, definition, parse)
    requires snapshot.entityKey in row && definition.labelField in row
    requires last.bad <==> row[definition.labelField] == Integer(definition.badValue)
    requires MeasuredAs(last.value, row[snapshot.entityKey], metricRows, metricName, parse)
    ensures RowsOf(rows + [last], labelled + [row], metricRows, metricName, snapshot, definition, parse)
  {
    hide MeasuredAs;
  }

  lemma {:induction false} CardinalityNext<T>(a: set<T>, k: T, m: set<T>)
    requires k !in a
    ensures |(a + {k}) * m| == |a * m| + if k in m then 1 else 0
  {
    assert (a + {k}) * m == a * m + if k in m then {k} else {};
  }

  lemma {:induction false} MatchedNext(read: seq<Labeled>, metrics: map<Cell, Option<real>>)
    requires read != [] && DistinctEntities(read)
    ensures var front, last := read[..|read| - 1], read[|read| - 1];
            |LabelKeys(read) * metrics.Keys|
            == |LabelKeys(front) * metrics.Keys| + if last.bad.Some? && Text(last.entity) in metrics then 1 else 0
  {
    var front, last := read[..|read| - 1], read[|read| - 1];
    LabelKeysStep(read);
    NonNullStep(read, metrics);
    hide *;
    if last.bad.Some? { CardinalityNext(LabelKeys(front), Text(last.entity), metrics.Keys); }
  }

  /** The snapshot is the declared one, and the labels are declared for its entities. */
  ghost predicate Declared(
      datasetRows: seq<Record>, snapshot: Snapshot, definition: LabelDefinition, show: Cell -> string,
      hash: seq<Record> -> string)
  {
    && |datasetRows| == snapshot.rowCount && Checksum(datasetRows, snapshot.entityKey, show, hash) == snapshot.checksum
    && definition.entityKey == snapshot.entityKey
  }

  /** What the join makes of the records. It succeeds exactly on the declared snapshot when both lists
      are sound: then there is one row for each labelled record, and an entity counts as matched if a
      metric row is about it. Otherwise it names the first fault, the snapshot's before the metrics'. */
  ghost predicate JoinsRecords(
      joined: Result<Output, Error>, metricRows: seq<Record>, datasetRows: seq<Record>, metricName: string,
      snapshot: Snapshot, definition: LabelDefinition, show: Cell -> string, hash: seq<Record> -> string,
      parse: Cell -> Option<real>)
  {
    if !Declared(datasetRows, snapshot, definition, show, hash) then joined == Err(DatasetInvalid)
    else if !SoundDataset(datasetRows, snapshot, definition) then
      joined.Err? && exists i: nat :: FirstFault(datasetRows, i, snapshot, definition, joined.error)
    else if !SoundMetrics(metricRows, metricName, parse) then
      joined.Err? && exists i: nat :: FirstMetricFault(metricRows, i, metricName, parse, joined.error)
    else
      var labelled := Filter(HasLabel(definition), datasetRows);
      && joined.Ok? && RowsOf(joined.value.rows, labelled, metricRows, metricName, snapshot, definition, parse)
      && joined.value.counts.matchedCount == Count(HasMatch(metricRows, snapshot.entityKey), labelled)
  }

  lemma {:induction false} JoinOnRecords(
      metricRows: seq<Record>, datasetRows: seq<Record>, metricName: string, snapshot: Snapshot, definition: LabelDefinition,
      show: Cell -> string, hash: seq<Record> -> string, parse: Cell -> Option<real>)
    ensures JoinsRecords(Join(metricRows, datasetRows, metricName, snapshot, definition, show, hash, parse),
                         metricRows, datasetRows, metricName, snapshot, definition, show, hash, parse)
  {
    var read, metrics := ReadDataset(datasetRows, snapshot, definition), ReadMetrics(metricRows, metricName, parse);
    DatasetRead(datasetRows, snapshot, definition);
    MetricsRead(metricRows, metricName, parse);
    ReadLength(datasetRows, snapshot, definition);
    hide ReadDataset, ReadMetrics, SoundDataset, SoundMetrics, ReadsRows, Collects, RowsOf, FirstFault, FirstMetricFault,
         Checksum, LabelKeys, LabeledRows, NonNull, Filter, DistinctEntities, HasLabel, HasMatch;
    if read.Ok? && metrics.Ok? {
      RowsJoined(read.value, metrics.value, datasetRows, metricRows, metricName, snapshot, definition, parse);
      MatchesCounted(read.value, metrics.value, datasetRows, metricRows, metricName, snapshot, definition, parse);
    }
  }

  // ------------------------------------------------------------ the loops

  /** The snapshot loop: fills the entity set and the labels, or stops at the first error. */
  method ScanDataset(datasetRows: seq<Record>, snapshot: Snapshot, definition: LabelDefinition)
    returns (r: Result<seq<Labeled>, Error>, labels: set<Cell>)
    ensures r == ReadDataset(datasetRows, snapshot, definition)
    ensures r.Ok? ==> labels == LabelKeys(r.value)
  {
    hide ReadRow, ReadLabel, LabelKeys;
    var entities: set<string>, read: seq<Labeled> := {}, [];
    labels := {};
    NoLabels();
    for i := 0 to |datasetRows|
      invariant ReadDataset(datasetRows[..i], snapshot, definition) == Ok(read)
      invariant labels == LabelKeys(read)
      invariant forall e :: e in entities <==> e in Entities(read)
    {
      var row := datasetRows[i];
      assert datasetRows[..i + 1][..i] == datasetRows[..i];
      PrefixError(datasetRows, i + 1, snapshot, definition);
      if definition.labelField !in row { return Err(DatasetInvalid), labels; }
      var entity := ReadRow(row, snapshot.entityKey, snapshot.partition);
      if entity.Err? { return Err(entity.error), labels; }
      if entity.value in entities { return Err(DuplicateEntity), labels; }
      entities := entities + {entity.value};
      var value := ReadLabel(row[definition.labelField], definition);
      if value.Err? { return Err(value.error), labels; }
      ghost var front := read;
      read := read + [Labeled(entity.value, value.value)];
      assert read[..|read| - 1] == front;
      LabelKeysStep(read);
      if value.value.Some? { labels := labels + {Text(entity.value)}; }
    }
    assert datasetRows[..|datasetRows|] == datasetRows;
    r := Ok(read);
  }

  /** The metric loop: fills the metric dictionary, or stops at the first error. */
  method ScanMetrics(metricRows: seq<Record>, metricName: string, parse: Cell -> Option<real>)
    returns (r: Result<map<Cell, Option<real>>, Error>)
    ensures r == ReadMetrics(metricRows, metricName, parse)
  {
    var metrics: map<Cell, Option<real>> := map[];
    for i := 0 to |metricRows|
      invariant ReadMetrics(metricRows[..i], metricName, parse) == Ok(metrics)
    {
      var row := metricRows[i];
      assert metricRows[..i + 1][..i] == metricRows[..i];
      MetricsPrefixError(metricRows, i + 1, metricName, parse);
      if "entity_id" !in row || metricName !in row { return Err(EvaluationFailed); }
      if row["entity_id"] in metrics { return Err(DuplicateEntity); }
      var value: Option<real> := None;
      if row[metricName] != Null {
        value := parse(row[metricName]);
        if value.None? { return Err(EvaluationFailed); }
      }
      metrics := metrics[row["entity_id"] := value];
    }
    assert metricRows[..|metricRows|] == metricRows;
    r := Ok(metrics);
  }

  /** `evaluation_dataset`, step by step. */
  method BuildDataset(
      metricRows: seq<Record>, datasetRows: seq<Record>, metricName: string, snapshot: Snapshot, definition: LabelDefinition,
      show: Cell -> string, hash: seq<Record> -> string, parse: Cell -> Option<real>) returns (r: Result<Output, Error>)
    ensures r == Join(metricRows, datasetRows, metricName, snapshot, definition, show, hash, parse)
    ensures JoinsRecords(r, metricRows, datasetRows, metricName, snapshot, definition, show, hash, parse)
  {
    JoinOnRecords(metricRows, datasetRows, metricName, snapshot, definition, show, hash, parse);
    hide ReadDataset, ReadMetrics, LabelKeys, MetricOf, JoinsRecords;
    if |datasetRows| != snapshot.rowCount { return Err(DatasetInvalid); }
    if Checksum(datasetRows, snapshot.entityKey, show, hash) != snapshot.checksum { return Err(DatasetInvalid); }
    if definition.entityKey != snapshot.entityKey { return Err(DatasetInvalid); }
    UnknownLabels(datasetRows, snapshot, definition);
    var scanned, labels := ScanDataset(datasetRows, snapshot, definition);
    if scanned.Err? { return Err(scanned.error); }
    var measured := ScanMetrics(metricRows, metricName, parse);
    if measured.Err? { return Err(measured.error); }
    var read, metrics := scanned.value, measured.value;
    var rows: seq<Row> := [];
    for i := 0 to |read|
      invariant rows == LabeledRows(read[..i], metrics)
    {
      assert read[..i + 1][..i] == read[..i];
      if read[i].bad.Some? { rows := rows + [Row(MetricOf(metrics, read[i].entity), read[i].bad.value)]; }
    }
    assert read[..|read|] == read;
    hide LabeledRows;
    var nonNull := set k | k in labels * metrics.Keys && metrics[k].Some?;
    assert nonNull == NonNull(read, metrics);
    r := Ok(Output(rows, Counts(
      |labels|, |labels * metrics.Keys|, |labels - metrics.Keys|, |metrics.Keys - labels|,
      |datasetRows| - |labels|, |nonNull|)));
  }

  /** Reading stops at the first error. */
  lemma {:induction false} PrefixError(rows: seq<Record>, i: nat, snapshot: Snapshot, definition: LabelDefinition)
    requires i <= |rows|
    ensures ReadDataset(rows[..i], snapshot, definition).Err?
            ==> ReadDataset(rows, snapshot, definition) == ReadDataset(rows[..i], snapshot, definition)
  {
    if i < |rows| {
      PrefixError(rows[..|rows| - 1], i, snapshot, definition);
      assert rows[..|rows| - 1][..i] == rows[..i];
    } else {
      assert rows[..i] == rows;
    }
  }

  lemma {:induction false} MetricsPrefixError(
      rows: seq<Record>, i: nat, metricName: string, parse: Cell -> Option<real>)
    requires i <= |rows|
    ensures ReadMetrics(rows[..i], metricName, parse).Err?
            ==> ReadMetrics(rows, metricName, parse) == ReadMetrics(rows[..i], metricName, parse)
  {
    if i < |rows| {
      MetricsPrefixError(rows[..|rows| - 1], i, metricName, parse);
      assert rows[..|rows| - 1][..i] == rows[..i];
    } else {
      assert rows[..i] == rows;
    }
  }
}
