/** The step names of a migration task and their command-line spellings,
    and the deep copy of the free-form parameter map of the migration API. */
module MigrationApi {
  import opened Wrappers
  import opened GoStrings

  /** A step of a migration task, named by its API value. */
  datatype StepEnum = StepEnum(value: string)

  const StepPreCheck: StepEnum := StepEnum("preCheck")
  const StepStructPreFullLoad: StepEnum := StepEnum("initStruct")
  const StepFullLoad: StepEnum := StepEnum("initData")
  const StepStructAfterFullLoad: StepEnum := StepEnum("initStructLater")
  const StepInitialization: StepEnum := StepEnum("initialization")
  const StepPreDelete: StepEnum := StepEnum("preDelete")
  const StepCdc: StepEnum := StepEnum("cdc")

  /** A step as the command line names it. */
  datatype CliStepEnum = CliStepEnum(value: string)

  const CliStepGlobal: CliStepEnum := CliStepEnum("global")
  const CliStepPreCheck: CliStepEnum := CliStepEnum("precheck")
  const CliStepInitStruct: CliStepEnum := CliStepEnum("init-struct")
  const CliStepInitData: CliStepEnum := CliStepEnum("init-data")
  const CliStepCdc: CliStepEnum := CliStepEnum("cdc")

  const Unknown: string := "unknown"

  /** The API value of a step; converting it back gives the step. */
  function StepString(s: StepEnum): (r: string)
    ensures StepEnum(r) == s
  {
    s.value
  }

  /** The command-line spelling; converting it back gives the step name. */
  function CliString(c: CliStepEnum): (r: string)
    ensures CliStepEnum(r) == c
  {
    c.value
  }

  /** Distinct steps have distinct API values, and likewise for the
      command-line names. */
  lemma StringInjective(s: StepEnum, t: StepEnum, c: CliStepEnum, d: CliStepEnum)
    ensures StepString(s) == StepString(t) ==> s == t
    ensures CliString(c) == CliString(d) ==> c == d
  {
  }

  /** The step's name in lower case. */
  function LowerCaseString(s: StepEnum): (r: string)
    ensures |r| == |s.value|
    ensures forall i :: 0 <= i < |r| ==> !('A' <= r[i] <= 'Z')
    ensures forall i :: 0 <= i < |r| && !('A' <= s.value[i] <= 'Z') ==> r[i] == s.value[i]
    ensures forall i :: 0 <= i < |r| && 'A' <= s.value[i] <= 'Z' ==> r[i] as int == s.value[i] as int + 32
  {
    ToLowerIdempotent(StepString(s));
    ToLower(StepString(s))
  }

  /** Lower-casing a step's lower-case name changes nothing. */
  lemma LowerCaseStringIdempotent(s: StepEnum)
    ensures LowerCaseString(StepEnum(LowerCaseString(s))) == LowerCaseString(s)
  {
    ToLowerIdempotent(s.value);
  }

  /** The four steps the command line can name. */
  predicate HasCliName(s: StepEnum) {
    s == StepPreCheck || s == StepStructPreFullLoad || s == StepFullLoad || s == StepCdc
  }

  /** The command-line spelling of a step; steps the command line does not
      name read as "unknown". */
  function StepCliString(s: StepEnum): (r: string)
    ensures r != CliString(CliStepGlobal)
    ensures r == Unknown <==> !HasCliName(s)
  {
    if s == StepPreCheck then CliString(CliStepPreCheck)
    else if s == StepStructPreFullLoad then CliString(CliStepInitStruct)
    else if s == StepFullLoad then CliString(CliStepInitData)
    else if s == StepCdc then CliString(CliStepCdc)
    else Unknown
  }

  /** The step a command-line spelling stands for. */
  function ParseCliStep(name: string): (r: Option<StepEnum>)
    ensures r.Some? ==> HasCliName(r.value)
  {
    if name == CliString(CliStepPreCheck) then Some(StepPreCheck)
    else if name == CliString(CliStepInitStruct) then Some(StepStructPreFullLoad)
    else if name == CliString(CliStepInitData) then Some(StepFullLoad)
    else if name == CliString(CliStepCdc) then Some(StepCdc)
    else None
  }

  /** Every step the command line names reads back from its spelling. */
  lemma CliStringRoundTrip(s: StepEnum)
    requires HasCliName(s)
    ensures ParseCliStep(StepCliString(s)) == Some(s)
  {
  }

  /** Every spelling the command line accepts is the spelling of its
      step, and "global" and "unknown" stand for no step. */
  lemma ParseCliStepRoundTrip(name: string)
    ensures ParseCliStep(name).Some? ==> StepCliString(ParseCliStep(name).value) == name
    ensures ParseCliStep(CliString(CliStepGlobal)).None?
    ensures ParseCliStep(Unknown).None?
  {
  }

  /** Distinct steps the command line names have distinct spellings. */
  lemma StepCliStringInjective(s: StepEnum, t: StepEnum)
    requires HasCliName(s) && HasCliName(t)
    requires StepCliString(s) == StepCliString(t)
    ensures s == t
  {
    CliStringRoundTrip(s);
    CliStringRoundTrip(t);
  }

  /* ---------------------------------------------------------------- */
  /* Deep copy of the parameter map                                   */
  /* ---------------------------------------------------------------- */

  /** A JSON value, the content a parameter map may hold. */
  datatype Json =
    | JNull
    | JBool(b: bool)
    | JNumber(n: int)
    | JString(s: string)
    | JArray(items: seq<Json>)
    | JObject(fields: map<string, Json>)

  type IntOrStringMap = map<string, Json>

  /** A copy that rebuilds every array and object. */
  function DeepCopyJson(v: Json): Json
    decreases v, 1
  {
    match v
    case JArray(items) => JArray(seq(|items|, i requires 0 <= i < |items| => DeepCopyJson(items[i])))
    case JObject(fields) => JObject(DeepCopyFields(fields))
    case _ => v
  }

  function DeepCopyFields(fields: map<string, Json>): map<string, Json>
    decreases JObject(fields), 0
  {
    map k | k in fields :: DeepCopyJson(fields[k])
  }

  /** The copy holds the same value as the original. */
  lemma {:induction false} DeepCopyJsonSame(v: Json)
    ensures DeepCopyJson(v) == v
    decreases v
  {
    match v
    case JArray(items) =>
      forall i | 0 <= i < |items| ensures DeepCopyJson(items[i]) == items[i] {
        DeepCopyJsonSame(items[i]);
      }
    case JObject(fields) =>
      forall k | k in fields ensures DeepCopyJson(fields[k]) == fields[k] {
        DeepCopyJsonSame(fields[k]);
      }
    case _ =>
  }

  /** A nil map copies to nil, any other map to a map with the same
      contents. */
  function DeepCopy(m: Option<IntOrStringMap>): (r: Option<IntOrStringMap>)
    ensures r.None? <==> m.None?
    ensures r.Some? ==> r.value == m.value
  {
    match m
    case None => None
    case Some(fields) =>
      forall k | k in fields ensures DeepCopyJson(fields[k]) == fields[k] {
        DeepCopyJsonSame(fields[k]);
      }
      Some(DeepCopyFields(fields))
  }
}
