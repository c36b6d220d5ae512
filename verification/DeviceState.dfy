// DeviceState: collector/src/device-state.ts as state-passing functions.
//
// The device and the journal file are values inside a World.  The World also
// carries the script: one Io per call to adb, simctl or the journal file, each
// saying how that call goes.  A run whose script is used up stops where it is,
// which is how the process dies between any two steps; "for every script" is
// therefore "for every environment and every crash point".

module DeviceState {
  import opened Text

  // ---- the vocabulary --------------------------------------------------------

  /** What a setting reads as; None is the source's null, "unset". */
  type Value = Option<string>

  datatype Domain = Locale | Display

  const DOMAINS: seq<Domain> := [Locale, Display]

  function DomainName(d: Domain): string {
    match d case Locale => "locale" case Display => "display"
  }

  /** The closed vocabulary, and the names the source's isSettingName refuses. */
  datatype SettingName =
    | SystemLocales | FontScale | FontWeightAdjustment | UiModeNight
    | AppleLanguages | AppleLocale | UiAppearance | UiContentSize
    | Unrecognised(text: string)

  /** The two settings simctl can set and cannot unset. */
  predicate IsSimctlUi(n: SettingName) {
    n.UiAppearance? || n.UiContentSize?
  }

  /** Which callers own a setting: locale-shots the language ones, a11y variants the rest. */
  function OwnerOf(n: SettingName): Domain {
    if n.SystemLocales? || n.AppleLanguages? || n.AppleLocale? then Locale else Display
  }

  datatype Kind = Device | Simulator

  datatype Target = Target(id: string, platform: string, kind: Option<Kind>)

  predicate Manageable(t: Target) {
    t.platform == "android" || t.kind == Some(Simulator)
  }

  /** A JavaScript record: its keys in insertion order, each once, and their values. */
  datatype Record<V> = Record(order: seq<SettingName>, at: map<SettingName, V>)

  ghost predicate WellFormed<V>(r: Record<V>) {
    (forall i, j :: 0 <= i < j < |r.order| ==> r.order[i] != r.order[j]) &&
    (forall n :: n in r.order <==> n in r.at)
  }

  datatype Entry = Entry(domain: Domain, prior: Record<Value>, wanted: Record<string>)

  function KeyOf(d: Domain, id: string): string {
    DomainName(d) + ":" + id
  }

  /** How the startup sweep gets a device id back out of a journal key. */
  function IdOfKey(key: string, d: Domain): string
    requires |DomainName(d)| + 1 <= |key|
  {
    key[|DomainName(d)| + 1..]
  }

  // ---- values ----------------------------------------------------------------

  function Normalise(v: Value): string {
    var s := Lower(Trim(if v.Some? then v.value else ""));
    seq(|s|, i requires 0 <= i < |s| => if s[i] == '_' then '-' else s[i])
  }

  /** Equal up to surrounding space, letter case, and hyphens written as underscores. */
  predicate Same(a: Value, b: Value) {
    Normalise(a) == Normalise(b)
  }

  // ---- the world -------------------------------------------------------------

  datatype Slot = Slot(id: string, name: SettingName)

  /** What a write does to the setting, whatever its exit status says. */
  datatype Effect = Takes | Ignored | Garbles(left: Value)

  datatype Io = Io(throws: bool, effect: Effect)

  const Works := Io(false, Takes)

  datatype World = World(device: map<Slot, string>, journal: map<string, Entry>, script: seq<Io>)

  function Get(device: map<Slot, string>, s: Slot): Value {
    if s in device then Some(device[s]) else None
  }

  function Set(device: map<Slot, string>, s: Slot, v: Value): map<Slot, string> {
    if v.Some? then device[s := v.value] else device - {s}
  }

  datatype Problem = Unreadable(name: SettingName) | StillWrong(name: SettingName, got: Value) | Unwritable(name: SettingName)

  datatype Error =
    | CallFailed
    | Unmanageable
    | UnknownSetting(name: SettingName)
    | CannotRead(name: SettingName)
    | NoWayBack(name: SettingName)
    | CouldNotSet(name: SettingName)
    | CouldNotVerify(name: SettingName)
    | DidNotTake(name: SettingName, got: Value)
    | CannotBeWrittenTo
    | NotFullyRestored(problems: seq<Problem>)
    | FromCaller(code: int)

  /** How an asynchronous call ends; Crashed is the process dying inside it. */
  datatype Outcome<+T> = Returned(value: T) | Threw(error: Error) | Crashed

  datatype Step<+T> = Step(w: World, out: Outcome<T>)

  // ---- readers and writers ---------------------------------------------------

  function Read(w: World, id: string, n: SettingName): Step<Value> {
    if w.script == [] then Step(w, Crashed)
    else
      var w' := w.(script := w.script[1..]);
      if w.script[0].throws then Step(w', Threw(CallFailed))
      else Step(w', Returned(Get(w.device, Slot(id, n))))
  }

  /** What the source asks the tool for: night mode has no "unset", so null becomes "no". */
  function AskedFor(n: SettingName, v: Value): Value {
    if n.UiModeNight? && v.None? then Some("no") else v
  }

  function Write(w: World, id: string, n: SettingName, v: Value): Step<()> {
    if IsSimctlUi(n) && v.None? then Step(w, Returned(()))  // simctl has no unset: nothing is run
    else if w.script == [] then Step(w, Crashed)
    else
      var s := Slot(id, n);
      var device := match w.script[0].effect
        case Takes => Set(w.device, s, AskedFor(n, v))
        case Ignored => w.device
        case Garbles(left) => Set(w.device, s, left);
      var w' := w.(device := device, script := w.script[1..]);
      if w.script[0].throws then Step(w', Threw(CallFailed)) else Step(w', Returned(()))
  }

  // ---- the journal -----------------------------------------------------------

  function JournalPut(w: World, d: Domain, id: string, e: Entry): Step<()> {
    if w.script == [] then Step(w, Crashed)
    else
      var w' := w.(script := w.script[1..]);
      if w.script[0].throws then Step(w', Threw(CallFailed))
      else Step(w'.(journal := w.journal[KeyOf(d, id) := e]), Returned(()))
  }

  function JournalDrop(w: World, d: Domain, id: string): Step<()> {
    if KeyOf(d, id) !in w.journal then Step(w, Returned(()))
    else if w.script == [] then Step(w, Crashed)
    else
      var w' := w.(script := w.script[1..]);
      if w.script[0].throws then Step(w', Threw(CallFailed))
      else Step(w'.(journal := w.journal - {KeyOf(d, id)}), Returned(()))
  }

  // ---- restore ---------------------------------------------------------------

  /** Write one prior back and read it again; the problem, if there is one. */
  function Fix(w: World, id: string, n: SettingName, want: Value): Step<seq<Problem>> {
    var wrote := Write(w, id, n, want);
    match wrote.out
    case Crashed => Step(wrote.w, Crashed)
    case Threw(_) => Step(wrote.w, Returned([Unwritable(n)]))
    case Returned(_) =>
      var after := Read(wrote.w, id, n);
      match after.out
      case Crashed => Step(after.w, Crashed)
      case Threw(_) => Step(after.w, Returned([Unwritable(n)]))
      case Returned(got) => Step(after.w, Returned(if Same(got, want) then [] else [StillWrong(n, got)]))
  }

  datatype Tally = Tally(changed: bool, problems: seq<Problem>)

  /** One setting of an entry: leave it if it is already back, otherwise write it back and check. */
  function RestoreOne(w: World, id: string, n: SettingName, want: Value): Step<Tally> {
    var now := Read(w, id, n);
    match now.out
    case Crashed => Step(now.w, Crashed)
    case Threw(_) => Step(now.w, Returned(Tally(false, [Unreadable(n)])))
    case Returned(v) =>
      if Same(v, want) then Step(now.w, Returned(Tally(false, [])))
      else
        var fixed := Fix(now.w, id, n, want);
        match fixed.out
        case Returned(ps) => Step(fixed.w, Returned(Tally(true, ps)))
        case _ => Step(fixed.w, Crashed)
  }

  function RestoreFrom(w: World, id: string, prior: Record<Value>, i: nat, tally: Tally): (r: Step<Tally>)
    requires i <= |prior.order|
    requires forall n :: n in prior.order ==> n in prior.at
    ensures r.w.journal == w.journal
    decreases |prior.order| - i
  {
    if i == |prior.order| then Step(w, Returned(tally))
    else
      var n := prior.order[i];
      var one := RestoreOne(w, id, n, prior.at[n]);
      match one.out
      case Returned(more) =>
        RestoreFrom(one.w, id, prior, i + 1, Tally(tally.changed || more.changed, tally.problems + more.problems))
      case _ => Step(one.w, Crashed)
  }

  /** What the journal file may be relied on for: every record in it is a record. */
  ghost predicate Readable(journal: map<string, Entry>) {
    forall k :: k in journal ==> WellFormed(journal[k].prior)
  }

  function Restore(w: World, t: Target, d: Domain): (r: Step<bool>)
    requires Readable(w.journal)
    ensures Readable(r.w.journal)
  {
    var k := KeyOf(d, t.id);
    if k !in w.journal then Step(w, Returned(false))
    else if !Manageable(t) then Step(w, Threw(CannotBeWrittenTo))
    else
      var r := RestoreFrom(w, t.id, w.journal[k].prior, 0, Tally(false, []));
      match r.out
      case Returned(tally) =>
        if tally.problems != [] then Step(r.w, Threw(NotFullyRestored(tally.problems)))
        else
          var dropped := JournalDrop(r.w, d, t.id);
          (match dropped.out
           case Returned(_) => Step(dropped.w, Returned(tally.changed))
           case Threw(e) => Step(dropped.w, Threw(e))
           case Crashed => Step(dropped.w, Crashed))
      case _ => Step(r.w, Crashed)
  }

  // ---- apply -----------------------------------------------------------------

  /** Read every prior, refusing what could not be undone. */
  function ReadPriors(w: World, id: string, names: seq<SettingName>, i: nat, at: map<SettingName, Value>): (r: Step<Record<Value>>)
    requires i <= |names|
    ensures r.w.device == w.device && r.w.journal == w.journal
    ensures r.out.Returned? ==> r.out.value.order == names
    ensures r.out.Returned? ==> forall n :: n in r.out.value.at <==> n in at || n in names[i..]
    ensures r.out.Returned? ==> forall n :: n in names[i..] ==> r.out.value.at[n] == Get(w.device, Slot(id, n))
    ensures r.out.Returned? ==> forall n :: n in at && n !in names[i..] ==> r.out.value.at[n] == at[n]
    ensures r.out.Returned? ==> forall n :: n in names[i..] && IsSimctlUi(n) ==> Get(w.device, Slot(id, n)).Some?
    decreases |names| - i
  {
    if i == |names| then Step(w, Returned(Record(names, at)))
    else
      var r := Read(w, id, names[i]);
      match r.out
      case Crashed => Step(r.w, Crashed)
      case Threw(_) => Step(r.w, Threw(CannotRead(names[i])))
      case Returned(v) =>
        if v.None? && IsSimctlUi(names[i]) then Step(r.w, Threw(NoWayBack(names[i])))
        else ReadPriors(r.w, id, names, i + 1, at[names[i] := v])
  }

  /** Put back what was done and rethrow, whether or not putting back worked. */
  function Undo(w: World, t: Target, d: Domain, e: Error): (r: Step<()>)
    requires Readable(w.journal)
    ensures Readable(r.w.journal) && !r.out.Returned?
  {
    var r := Restore(w, t, d);
    if r.out.Crashed? then Step(r.w, Crashed) else Step(r.w, Threw(e))
  }

  function WriteAll(w: World, t: Target, d: Domain, wanted: Record<string>, i: nat): (r: Step<()>)
    requires i <= |wanted.order| && WellFormed(wanted) && Readable(w.journal)
    ensures Readable(r.w.journal)
    ensures r.out.Returned? ==> r.w.journal == w.journal
    decreases |wanted.order| - i
  {
    if i == |wanted.order| then Step(w, Returned(()))
    else
      var n := wanted.order[i];
      var r := Write(w, t.id, n, Some(wanted.at[n]));
      match r.out
      case Crashed => Step(r.w, Crashed)
      case Threw(_) => Undo(r.w, t, d, CouldNotSet(n))
      case Returned(_) => WriteAll(r.w, t, d, wanted, i + 1)
  }

  function VerifyAll(w: World, t: Target, d: Domain, wanted: Record<string>, i: nat): (r: Step<()>)
    requires i <= |wanted.order| && WellFormed(wanted) && Readable(w.journal)
    ensures Readable(r.w.journal)
    ensures r.out.Returned? ==> r.w.journal == w.journal
    decreases |wanted.order| - i
  {
    if i == |wanted.order| then Step(w, Returned(()))
    else
      var n := wanted.order[i];
      var r := Read(w, t.id, n);
      match r.out
      case Crashed => Step(r.w, Crashed)
      case Threw(_) => Undo(r.w, t, d, CouldNotVerify(n))
      case Returned(got) =>
        if !Same(got, Some(wanted.at[n])) then Undo(r.w, t, d, DidNotTake(n, got))
        else VerifyAll(r.w, t, d, wanted, i + 1)
  }

  function FirstUnknown(names: seq<SettingName>, i: nat): Option<SettingName>
    requires i <= |names|
    decreases |names| - i
  {
    if i == |names| then None
    else if names[i].Unrecognised? then Some(names[i])
    else FirstUnknown(names, i + 1)
  }

  function ApplyJournalled(w: World, t: Target, d: Domain, wanted: Record<string>): (r: Step<()>)
    requires WellFormed(wanted) && Readable(w.journal)
    ensures Readable(r.w.journal)
  {
    var wrote := WriteAll(w, t, d, wanted, 0);
    if wrote.out.Returned? then VerifyAll(wrote.w, t, d, wanted, 0) else wrote
  }

  /** From the priors on: journal them, and only then touch the device. */
  function ApplyWith(w: World, t: Target, d: Domain, wanted: Record<string>, prior: Record<Value>): (r: Step<()>)
    requires WellFormed(wanted) && WellFormed(prior) && Readable(w.journal)
    ensures Readable(r.w.journal)
  {
    var put := JournalPut(w, d, t.id, Entry(d, prior, wanted));
    if put.out.Returned? then ApplyJournalled(put.w, t, d, wanted) else put
  }

  /** Why applyState refuses before it reads anything, if it does. */
  function Refusal(t: Target, wanted: Record<string>): Option<Error> {
    if !Manageable(t) then Some(Unmanageable)
    else
      var unknown := FirstUnknown(wanted.order, 0);
      if unknown.Some? then Some(UnknownSetting(unknown.value)) else None
  }

  function Apply(w: World, t: Target, d: Domain, wanted: Record<string>): (r: Step<()>)
    requires WellFormed(wanted) && Readable(w.journal)
    ensures Readable(r.w.journal)
  {
    var refusal := Refusal(t, wanted);
    if refusal.Some? then Step(w, Threw(refusal.value))
    else if wanted.order == [] then Step(w, Returned(()))
    else
      var r := ReadPriors(w, t.id, wanted.order, 0, map[]);
      match r.out
      case Crashed => Step(r.w, Crashed)
      case Threw(e) => Step(r.w, Threw(e))
      case Returned(prior) => ApplyWith(r.w, t, d, wanted, prior)
  }

  // ---- withState and the startup sweep ---------------------------------------

  /** Apply, run the caller's function (which ends as fn says), put back, keep fn's outcome. */
  function WithState(w: World, t: Target, d: Domain, wanted: Record<string>, fn: Outcome<int>): (r: Step<int>)
    requires WellFormed(wanted) && Readable(w.journal)
    ensures Readable(r.w.journal)
  {
    var applied := Apply(w, t, d, wanted);
    match applied.out
    case Crashed => Step(applied.w, Crashed)
    case Threw(e) => Step(applied.w, Threw(e))
    case Returned(_) =>
      if fn.Crashed? then Step(applied.w, Crashed)
      else
        var restored := Restore(applied.w, t, d);
        Step(restored.w, if restored.out.Crashed? then Crashed else fn)
  }

  /** One target and one domain of the sweep: a failed restore is logged, not thrown. */
  function Repair(w: World, t: Target, d: Domain, repaired: seq<string>): (r: Step<seq<string>>)
    requires Readable(w.journal)
    ensures Readable(r.w.journal)
  {
    var restored := Restore(w, t, d);
    match restored.out
    case Crashed => Step(restored.w, Crashed)
    case Threw(_) => Step(restored.w, Returned(repaired))
    case Returned(changed) =>
      Step(restored.w, Returned(if changed && t.id !in repaired then repaired + [t.id] else repaired))
  }

  /** The sweep from its i-th restore on: both domains of the first target, then of the next. */
  function SweepFrom(w: World, targets: seq<Target>, i: nat, repaired: seq<string>): (r: Step<seq<string>>)
    requires i <= 2 * |targets| && Readable(w.journal)
    ensures Readable(r.w.journal)
    decreases 2 * |targets| - i
  {
    if i == 2 * |targets| then Step(w, Returned(repaired))
    else
      var one := Repair(w, targets[i / 2], DOMAINS[i % 2], repaired);
      if one.out.Returned? then SweepFrom(one.w, targets, i + 1, one.out.value) else one
  }

  function Sweep(w: World, targets: seq<Target>): Step<seq<string>>
    requires Readable(w.journal)
  {
    SweepFrom(w, targets, 0, [])
  }
}
