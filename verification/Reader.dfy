/** One pass of the deserializer. */
module Reader {
  // It holds for every plan: whatever fields are supplied and whatever sections are left out.

  import opened Options
  import opened Trees
  import opened Schemas

  /** A field to supply a placeholder for, and the path of its table. */
  datatype Patch = Patch(parent: string, field: string)

  /** What a pass is given. */
  datatype Plan = Plan(patches: seq<Patch>, root: string, skipped: set<string>)

  /** A field asked for, and what to list for it: nothing where an absence above is listed. */
  datatype NewPatch = NewPatch(patch: Patch, problem: Option<Problem>)

  /** A section to leave out from now on, and how many problems stood before it. */
  datatype Failed = Failed(section: string, start: nat)

  /** What a pass has learnt so far. */
  datatype Log = Log(
    problems: seq<Problem>,
    consumed: set<string>,
    patch: Option<NewPatch>,
    failed: Option<Failed>)

  const NOTHING := Log([], {}, None, None)

  datatype ErrorKind = Custom | Missing(field: string)

  /** `recorded`: whoever sees this error next has nothing to list. */
  datatype DeError = DeError(kind: ErrorKind, recorded: bool)

  datatype Result<+T> = Ok(value: T) | Err(error: DeError)

  function Silenced(e: DeError): DeError {
    e.(recorded := true)
  }

  const REFUSAL := DeError(Custom, false)

  /** The log once the value at `t`, if there is one and it is a scalar, is marked read. */
  function Consumed(t: Target, path: string, log: Log): Log {
    if t.At? && IsScalar(t.node) then log.(consumed := log.consumed + {path}) else log
  }

  function Record(log: Log, problems: seq<Problem>): Log {
    log.(problems := log.problems + problems)
  }

  /** An error on its way up is listed at the first node that sees it, unless it is listed or silenced already. */
  function RecordError<T>(t: Target, path: string, r: Result<T>, log: Log): (Log, Result<T>) {
    match r
    case Ok(_) => (log, r)
    case Err(e) =>
      if e.recorded || Silent(t) then (log, Err(Silenced(e)))
      else (Record(log, [Problem(path, OriginOf(t), Refused)]), Err(Silenced(e)))
  }

  /** The node a target holds, for termination: a read of `SAny` stays on one schema. */
  function Held(t: Target): Node {
    if t.At? then t.node else Node(Null, Default)
  }

  /** Deserialises `t` as `s`. */
  function Read(cx: Plan, s: Schema, t: Target, path: string, log: Log): (Log, Result<Decoded>)
    decreases s, Held(t), 5, 0
  {
    match s
    case SOption(inner) =>
      if t.Absent? then (log, Ok(DNone))
      else if t.node.value.Null? then (Consumed(t, path, log), Ok(DNone))
      else
        var (log1, r) := Read(cx, inner, t, path, log);
        RecordError(t, path, if r.Ok? then Ok(DSome(r.value)) else r, log1)
    case SMapped(inner, takes) =>
      var (log1, r) := Read(cx, inner, t, path, log);
      if r.Ok? && !takes(r.value) then (log1, Err(REFUSAL)) else (log1, r)
    case SSeq(_) => ReadSeq(cx, s, t, path, log)
    case SAny =>
      if t.Absent? then
        (Record(log, Mismatch(t, path, "a value")), Ok(DRaw(Null)))
      else if t.node.value.Array? then ReadSeq(cx, s, t, path, log)
      else if t.node.value.Table? then ReadTable(cx, s, t, path, log)
      else (Consumed(t, path, log), Ok(DRaw(t.node.value)))
    case SMap(_) => ReadTable(cx, s, t, path, log)
    case SStruct(_) => ReadTable(cx, s, t, path, log)
    case _ =>
      var r := ReadScalar(s, t, path);
      (Record(Consumed(t, path, log), r.problems),
       if r.value.Some? then Ok(r.value.value) else Err(Silenced(REFUSAL)))
  }

  // ---- Arrays ----

  function ElementOf(s: Schema): Schema
    requires s.SSeq? || s.SAny?
  {
    if s.SSeq? then s.element else SAny
  }

  function ReadSeq(cx: Plan, s: Schema, t: Target, path: string, log: Log): (Log, Result<Decoded>)
    requires s.SSeq? || (s.SAny? && t.At? && t.node.value.Array?)
    decreases s, Held(t), 1, 0
  {
    if t.At? && t.node.value.Array? then
      var (log1, r) := ReadItems(cx, s, t, path, 0, [], log);
      RecordError(t, path, r, log1)
    else
      (Record(log, Mismatch(t, path, "an array")), Ok(DSeq([])))
  }

  function ReadItems(cx: Plan, s: Schema, t: Target, path: string, i: nat, got: seq<Decoded>,
      log: Log): (Log, Result<Decoded>)
    requires s.SSeq? || s.SAny?
    requires t.At? && t.node.value.Array? && i <= |t.node.value.items|
    decreases s, Held(t), 0, |t.node.value.items| - i
  {
    var items := t.node.value.items;
    if i == |items| then
      (log, Ok(DSeq(got)))
    else
      var (log1, r) := Read(cx, ElementOf(s), At(items[i]), JoinIndex(path, i), log);
      if r.Err? then (log1, r) else ReadItems(cx, s, t, path, i + 1, got + [r.value], log1)
  }

  // ---- Tables ----

  /** The names patched at `path` that are no entry's, in the order of the patches. */
  function Extras(patches: seq<Patch>, path: string, entries: seq<Entry>): seq<string> {
    if patches == [] then []
    else
      (if patches[0].parent == path && !HasKey(entries, patches[0].field) then [patches[0].field] else [])
      + Extras(patches[1..], path, entries)
  }

  /** The value under a key, read with the section's failure noted at the root table. */
  function NextValue(cx: Plan, s: Schema, t: Target, base: string, path: string, log: Log): (Log, Result<Decoded>)
    decreases s, Held(t), 6, 0
  {
    var (log1, r) := Read(cx, s, t, path, log);
    var (log2, r2) := RecordError(t, path, r, log1);
    if r2.Err? && base == cx.root && log2.patch.None? && path !in cx.skipped then
      (log2.(failed := Some(Failed(path, |log.problems|))), r2)
    else
      (log2, r2)
  }

  function Taken(s: Schema, key: string, got: map<string, Decoded>): bool {
    s.SStruct? && key in got
  }

  predicate SetAside(cx: Plan, base: string, key: string) {
    base == cx.root && JoinKey(base, key) in cx.skipped
  }

  /** The entries from place `i` on, in tree order; a key the type does not know is left unread. */
  function ReadEntries(cx: Plan, s: Schema, t: Target, path: string, i: nat, got: map<string, Decoded>, log: Log)
    : (Log, Result<map<string, Decoded>>)
    requires IsTable(s) && i <= |EntriesOf(t)|
    decreases s, Held(t), 3, |EntriesOf(t)| - i
  {
    var entries := EntriesOf(t);
    if i == |entries| then
      (log, Ok(got))
    else
      var key := entries[i].key;
      if SetAside(cx, path, key) || !Reads(s, key) then
        ReadEntries(cx, s, t, path, i + 1, got, log)
      else if Taken(s, key, got) then
        (log, Err(REFUSAL))
      else
        var (log1, r) := NextValue(cx, Under(s, key), At(entries[i].node), path, JoinKey(path, key), log);
        if r.Err? then (log1, Err(r.error)) else ReadEntries(cx, s, t, path, i + 1, got[key := r.value], log1)
  }

  /** The placeholders from place `i` on. */
  function ReadExtras(cx: Plan, s: Schema, t: Target, path: string, extras: seq<string>, i: nat,
      got: map<string, Decoded>, log: Log)
    : (Log, Result<map<string, Decoded>>)
    requires IsTable(s) && i <= |extras| && (s.SAny? ==> t.At? && t.node.value.Table?)
    decreases s, Held(t), 3, |extras| - i
  {
    if i == |extras| then
      (log, Ok(got))
    else
      var key := extras[i];
      if !Reads(s, key) then
        ReadExtras(cx, s, t, path, extras, i + 1, got, log)
      else if Taken(s, key, got) then
        (log, Err(REFUSAL))
      else if s.SAny? then
        // A placeholder read for no type: nothing to report, and a unit for its value.
        ReadExtras(cx, s, t, path, extras, i + 1, got[key := DRaw(Null)], log)
      else
        var (log1, r) := NextValue(cx, Under(s, key), Absent(true, OriginOf(t)), path, JoinKey(path, key), log);
        if r.Err? then (log1, Err(r.error)) else ReadExtras(cx, s, t, path, extras, i + 1, got[key := r.value], log1)
  }

  /** The place of the first field, from `i` on, that nothing supplies and nothing stands in for. */
  function FirstGap(fields: seq<Field>, got: map<string, Decoded>, i: nat): (j: nat)
    requires i <= |fields|
    ensures i <= j <= |fields|
    decreases |fields| - i
  {
    if i == |fields| || (fields[i].name !in got && !GivenFor(fields[i]).Value?) then i
    else FirstGap(fields, got, i + 1)
  }

  /** The table a struct is built from, its absent optional and defaulted fields filled in. */
  function Completed(fields: seq<Field>, got: map<string, Decoded>): map<string, Decoded> {
    map name | name in (set i | 0 <= i < |fields| :: fields[i].name) + got.Keys ::
      if name in got then got[name]
      else
        var i := FindField(fields, name);
        if i < |fields| && GivenFor(fields[i]).Value? then GivenFor(fields[i]).value else DDefault
  }

  /** The derive, once every entry is read. */
  function Closed(s: Schema, got: map<string, Decoded>): Result<Decoded>
    requires IsTable(s)
  {
    var fields := FieldsOf(s);
    var gap := FirstGap(fields, got, 0);
    if gap == |fields| then Ok(DTable(Completed(fields, got)))
    else if GivenFor(fields[gap]).Required? then Err(DeError(Missing(fields[gap].name), false))
    else Err(REFUSAL)
  }

  function MissingProblem(t: Target, path: string, field: string): Option<Problem> {
    if (t.At? && !t.node.value.Table?) || Silent(t) then None
    else Some(Problem(JoinKey(path, field), SuppliedOrigin(t), MissingField))
  }

  /** How a table's read ends: a field the derive lacks is asked for, any other error is listed. */
  function TableResult(cx: Plan, t: Target, path: string, r: Result<Decoded>, log: Log): (Log, Result<Decoded>) {
    if r.Err? && r.error.kind.Missing? && !r.error.recorded then
      var field := r.error.kind.field;
      if SetAside(cx, path, field) then
        (log, Err(Silenced(r.error)))
      else
        (log.(patch := Some(NewPatch(Patch(path, field), MissingProblem(t, path, field)))), Err(Silenced(r.error)))
    else
      RecordError(t, path, r, log)
  }

  function NotATable(t: Target, path: string): seq<Problem> {
    if t.At? && !t.node.value.Table? then Mismatch(t, path, "a table") else []
  }

  function ReadTable(cx: Plan, s: Schema, t: Target, path: string, log: Log): (Log, Result<Decoded>)
    requires IsTable(s) && (s.SAny? ==> t.At? && t.node.value.Table?)
    decreases s, Held(t), 4, 0
  {
    var log1 := Record(log, NotATable(t, path));
    var (log2, r2) := ReadEntries(cx, s, t, path, 0, map[], log1);
    if r2.Err? then
      TableResult(cx, t, path, Err(r2.error), log2)
    else
      var (log3, r3) := ReadExtras(cx, s, t, path, Extras(cx.patches, path, EntriesOf(t)), 0, r2.value, log2);
      TableResult(cx, t, path, if r3.Err? then Err(r3.error) else Closed(s, r3.value), log3)
  }
}
