/** The patch operations and their reference meaning: an interpreter that scans the live document.

    Reference states are values; nothing is cached and nothing is noted. A panic is a `fuse` that
    burns at every evaluation and around every edit: any starting value is any place to panic, and a
    negative one never does. */
module PatchSpec {
  import opened Wrappers
  import opened Arena
  import opened DefScan

  // ---------------------------------------------------------------- operations

  /** A result node: a node of the arena, or an attribute of an element. */
  datatype XNode = XAttr(owner: Id, position: nat) | XNode(id: Id)

  datatype Found = Found(nodes: seq<XNode>) | EvalError

  /** A parsed expression. A planned one starts with `Defs/Type[defName="x"]` and applies the
      remaining steps, if any, to the definitions found. */
  datatype XPath =
    | Malformed
    | General(eval: Forest -> Found)
    | Planned(keys: seq<DefKey>, rest: Option<(Forest, seq<Id>) -> Found>)

  /** The children of a `value` element, as an owned sibling list. */
  datatype Val = VNil | VNode(isText: bool, name: string, text: string, attrs: seq<(string, string)>, kids: Val,
    next: Val)

  datatype Order = AppendOrder | PrependOrder
  datatype AttributeMode = AddAttr | SetAttr | RemoveAttr
  datatype Success = Normal | Invert | Always | Never

  datatype Leaf =
    | Add(value: Option<Val>, order: Order)
    | Insert(value: Option<Val>, order: Order)
    | Replace(value: Option<Val>)
    | Remove
    | AddModExtension(value: Option<Val>)
    | Attribute(attribute: Option<string>, attrValue: Option<string>, mode: AttributeMode)
    | SetName(newName: Option<string>)

  datatype PatchOp = PatchOp(success: Success, kind: PatchKind)

  datatype PatchKind =
    | Base
    | Unknown
    | Edit(xpath: Option<XPath>, leaf: Leaf)
    | Test(xpath: Option<XPath>)
    | Conditional(xpath: Option<XPath>, onMatch: Option<PatchOp>, onNomatch: Option<PatchOp>)
    | FindMod(mods: seq<string>, onMatch: Option<PatchOp>, onNomatch: Option<PatchOp>)
    | Setting(setting: Option<bool>, onMatch: Option<PatchOp>, onNomatch: Option<PatchOp>)
    | Sequence(given: bool, operations: seq<PatchOp>)

  /** What the engine is given: which names, characters and subtrees the arena accepts, and the
      display names of the active mods. */
  datatype Env = Env(nameOk: string -> bool, charsOk: string -> bool, elementOk: Val -> bool, modNames: set<string>)

  function Rewrite(s: Success, worker: bool): bool {
    match s
    case Normal => worker
    case Invert => !worker
    case Always => true
    case Never => false
  }

  // ---------------------------------------------------------------- importing a value

  function ValSize(v: Val): nat {
    match v
    case VNil => 0
    case VNode(_, _, _, _, kids, next) => 1 + ValSize(kids) + ValSize(next)
  }

  predicate HasElement(v: Val) {
    v.VNode? && (!v.isText || HasElement(v.next))
  }

  function TextOf(v: Val): string {
    match v
    case VNil => ""
    case VNode(isText, _, text, _, _, next) => (if isText then text else "") + TextOf(next)
  }

  predicate Importable(env: Env, v: Val) {
    v.VNode? ==> (if v.isText then env.charsOk(v.text) else env.elementOk(v)) && Importable(env, v.next)
  }

  /** The imported copy: detached nodes with handles `at`, `at + 1`, ... in document order. */
  function Import(v: Val, at: Id): Forest {
    match v
    case VNil => Nil
    case VNode(isText, name, text, attrs, kids, next) =>
      Node(at, if isText then Text else Element, if isText then "" else name, if isText then text else "",
           if isText then [] else attrs,
           if isText then Nil else Import(kids, at + 1), Import(next, at + 1 + ValSize(kids)))
  }

  function LevelList(f: Forest): seq<Id> {
    match f
    case Nil => []
    case Node(id, _, _, _, _, _, next) => [id] + LevelList(next)
  }

  // ---------------------------------------------------------------- attributes

  function AttrIndex(attrs: seq<(string, string)>, name: string): Option<nat> {
    if attrs == [] then None
    else if attrs[0].0 == name then Some(0)
    else match AttrIndex(attrs[1..], name)
         case None => None
         case Some(i) => Some(i + 1)
  }

  function PutAttr(attrs: seq<(string, string)>, name: string, value: string): seq<(string, string)> {
    match AttrIndex(attrs, name)
    case None => attrs + [(name, value)]
    case Some(i) => if i < |attrs| then attrs[i := (name, value)] else attrs
  }

  function DropAttr(attrs: seq<(string, string)>, name: string): seq<(string, string)> {
    match AttrIndex(attrs, name)
    case None => attrs
    case Some(i) => if i < |attrs| then attrs[..i] + attrs[i + 1..] else attrs
  }

  function ChildNamed(kids: Forest, name: string): Option<Id> {
    match kids
    case Nil => None
    case Node(id, kind, n, _, _, _, next) => if kind.Element? && n == name then Some(id) else ChildNamed(next, name)
  }

  const MOD_EXTENSIONS := "modExtensions"

  function NewElement(id: Id, name: string, kids: Forest): Forest {
    Node(id, Element, name, "", [], kids, Nil)
  }

  predicate IsElement(f: Forest, id: Id) {
    At(f, id).Node? && At(f, id).kind.Element?
  }

  // ---------------------------------------------------------------- one target of one operation

  datatype St = St(f: Forest, issued: Id, fuse: int)

  datatype Outcome = Done(ok: bool) | Raised | Panicked

  /** The running state of a target loop: did a target count, which nodes are detached so far. */
  datatype Cur = Cur(st: St, hit: bool, detached: seq<Id>)

  datatype Flow = Go(c: Cur) | Stop(c: Cur, r: Outcome)

  predicate Blown(fuse: int) { fuse == 0 }

  function Burn(fuse: int): int { if fuse > 0 then fuse - 1 else fuse }

  /** One edit of the arena: a panic can strike just before it or just after it. */
  function Commit(c: Cur, f: Forest, issued: Id): Flow {
    if Blown(c.st.fuse) then Stop(c, Panicked)
    else
      var fuse := Burn(c.st.fuse);
      if Blown(fuse) then Stop(c.(st := St(f, issued, fuse)), Panicked)
      else Go(c.(st := St(f, issued, Burn(fuse))))
  }

  function Counted(flow: Flow): Flow {
    if flow.Go? then Go(flow.c.(hit := true)) else flow
  }

  function Detaching(flow: Flow, id: Id): Flow {
    if flow.Go? then Go(flow.c.(detached := flow.c.detached + [id])) else flow
  }

  function AddKids(f: Forest, id: Id, items: Forest, order: Order): Forest {
    if order.AppendOrder? then Append(KidsOf(f, id), items) else Append(items, KidsOf(f, id))
  }

  function AddSpec(env: Env, v: Val, order: Order, c: Cur, target: XNode): Flow {
    var f := c.st.f;
    match target
    case XAttr(owner, position) =>
      var a := At(f, owner);
      if HasElement(v) then Stop(c, Raised)
      else if a.Node? && a.kind.Element? && position < |a.attrs| then
        var (name, current) := a.attrs[position];
        var updated := if order.AppendOrder? then current + TextOf(v) else TextOf(v) + current;
        if env.charsOk(updated)
          then Counted(Commit(c, SetAttrs(f, owner, PutAttr(a.attrs, name, updated)), c.st.issued))
        else Stop(c, Raised)
      else Stop(c, Raised)
    case XNode(id) =>
      var a := At(f, id);
      if (a.Node? && a.kind.Text?) || !Importable(env, v) || a.Nil? then Stop(c, Raised)
      else Counted(Commit(c, SetKids(f, id, AddKids(f, id, Import(v, c.st.issued), order)), c.st.issued + ValSize(v)))
  }

  /** Every copy lands directly beside the target, so several copies end up reversed. */
  function InsertedList(f: Forest, id: Id, items: Forest, order: Order): Forest {
    if order.AppendOrder? then Append(At(f, id), Rev(items)) else Append(Rev(items), At(f, id))
  }

  function InsertSpec(env: Env, v: Val, order: Order, c: Cur, target: XNode): Flow {
    var f := c.st.f;
    match target
    case XAttr(_, _) => Stop(c, Raised)
    case XNode(id) =>
      if !Importable(env, v) then Stop(c, Raised)
      else if v.VNil? then Go(c.(hit := true))
      else match ParentOf(f, id)
           case None => Stop(c, Raised)
           case Some(p) =>
             var kids := ReplaceAt(KidsOf(f, p), id, InsertedList(f, id, Import(v, c.st.issued), order));
             Counted(Commit(c, SetKids(f, p, kids), c.st.issued + ValSize(v)))
  }

  function ReplaceSpec(env: Env, v: Val, c: Cur, target: XNode): Flow {
    var f := c.st.f;
    match target
    case XAttr(_, _) => Stop(c, Raised)
    case XNode(id) =>
      if id !in Ids(f) then Go(c.(hit := true))
      else match ParentOf(f, id)
           case None => Stop(c, Raised)
           case Some(p) =>
             if !Importable(env, v) then Stop(c, Raised)
             else
               var kids := ReplaceAt(KidsOf(f, p), id, Import(v, c.st.issued));
               Detaching(Counted(Commit(c, Append(SetKids(f, p, kids), At(f, id)), c.st.issued + ValSize(v))), id)
  }

  function RemoveSpec(c: Cur, target: XNode): Flow {
    var f := c.st.f;
    match target
    case XAttr(_, _) => Stop(c, Raised)
    case XNode(id) =>
      if id !in Ids(f) then Go(c.(hit := true))
      else match ParentOf(f, id)
           case None => Stop(c, Raised)
           case Some(p) =>
             var kids := ReplaceAt(KidsOf(f, p), id, Nil);
             Detaching(Counted(Commit(c, Append(SetKids(f, p, kids), At(f, id)), c.st.issued)), id)
  }

  /** Two edits: the `modExtensions` element is created before the value is imported, and it stays
      when the import fails. */
  function ExtensionSpec(env: Env, v: Val, c: Cur, target: XNode): Flow {
    match target
    case XAttr(_, _) => Stop(c, Raised)
    case XNode(id) =>
      if !IsElement(c.st.f, id) then Stop(c, Raised)
      else match ChildNamed(KidsOf(c.st.f, id), MOD_EXTENSIONS)
           case Some(ext) => ExtendSpec(env, v, c, ext)
           case None =>
             var made := CreateSpec(c, id);
             if made.Go? then ExtendSpec(env, v, made.c, c.st.issued) else made
  }

  /** The empty `modExtensions` element, created at the end of the children. */
  function CreateSpec(c: Cur, id: Id): Flow {
    var kids := Append(KidsOf(c.st.f, id), NewElement(c.st.issued, MOD_EXTENSIONS, Nil));
    Commit(c, SetKids(c.st.f, id, kids), c.st.issued + 1)
  }

  function ExtendSpec(env: Env, v: Val, c: Cur, ext: Id): Flow {
    if !Importable(env, v) then Stop(c, Raised)
    else
      var kids := Append(KidsOf(c.st.f, ext), Import(v, c.st.issued));
      Counted(Commit(c, SetKids(c.st.f, ext, kids), c.st.issued + ValSize(v)))
  }

  function AttributeSpec(env: Env, attribute: Option<string>, value: string, mode: AttributeMode, c: Cur,
                         target: XNode): Flow
  {
    var f := c.st.f;
    match target
    case XAttr(_, _) => Stop(c, Raised)
    case XNode(id) =>
      if !IsElement(f, id) || attribute.None? then Stop(c, Raised)
      else
        var attrs := At(f, id).attrs;
        var present := AttrIndex(attrs, attribute.value).Some?;
        if mode.SetAttr? || (mode.AddAttr? && !present) then
          if env.charsOk(value) && env.nameOk(attribute.value)
          then Counted(Commit(c, SetAttrs(f, id, PutAttr(attrs, attribute.value, value)), c.st.issued))
          else Stop(c, Raised)
        else if mode.RemoveAttr? && present then
          Counted(Commit(c, SetAttrs(f, id, DropAttr(attrs, attribute.value)), c.st.issued))
        else Go(c)
  }

  /** A rename is a new element in the old one's place that takes over its children. */
  function SetNameSpec(env: Env, name: Option<string>, c: Cur, target: XNode): Flow {
    var f := c.st.f;
    match target
    case XAttr(_, _) => Stop(c, Raised)
    case XNode(id) =>
      if !IsElement(f, id) then Stop(c, Raised)
      else match ParentOf(f, id)
           case None => Stop(c, Raised)
           case Some(p) =>
             if name.None? || !env.nameOk(name.value) then Stop(c, Raised)
             else
               var kids := ReplaceAt(KidsOf(f, p), id, NewElement(c.st.issued, name.value, KidsOf(f, id)));
               Counted(Commit(c, SetKids(f, p, kids), c.st.issued + 1))
  }

  /** The value a class needs is there (checked before anything is selected). */
  predicate Ready(leaf: Leaf) {
    match leaf
    case Add(v, _) => v.Some?
    case Insert(v, _) => v.Some?
    case Replace(v) => v.Some?
    case AddModExtension(v) => v.Some?
    case _ => true
  }

  function TargetSpec(env: Env, leaf: Leaf, c: Cur, target: XNode): Flow
    requires Ready(leaf)
  {
    match leaf
    case Add(v, order) => AddSpec(env, v.value, order, c, target)
    case Insert(v, order) => InsertSpec(env, v.value, order, c, target)
    case Replace(v) => ReplaceSpec(env, v.value, c, target)
    case Remove => RemoveSpec(c, target)
    case AddModExtension(v) => ExtensionSpec(env, v.value, c, target)
    case Attribute(name, value, mode) =>
      AttributeSpec(env, name, if value.Some? then value.value else "", mode, c, target)
    case SetName(name) => SetNameSpec(env, name, c, target)
  }

  // ---------------------------------------------------------------- whole operations

  function TargetsSpec(env: Env, leaf: Leaf, c: Cur, targets: seq<XNode>): Flow
    requires Ready(leaf)
    decreases |targets|
  {
    if targets == [] then Go(c)
    else match TargetSpec(env, leaf, c, targets[0])
         case Go(c') => TargetsSpec(env, leaf, c', targets[1..])
         case Stop(c', r) => Stop(c', r)
  }

  /** Frees the nodes that are still detached. */
  function FreeSpec(f: Forest, nodes: seq<Id>): Forest
    decreases |nodes|
  {
    if nodes == [] then f
    else FreeSpec(if nodes[0] in Level(f) && nodes[0] != DOC then ReplaceAt(f, nodes[0], Nil) else f, nodes[1..])
  }

  datatype Out = Out(st: St, r: Outcome)

  function LeafSpec(env: Env, leaf: Leaf, st: St, targets: seq<XNode>): Out
    requires Ready(leaf)
  {
    var flow := TargetsSpec(env, leaf, Cur(st, false, []), targets);
    var r := if flow.Go? then Done(flow.c.hit) else flow.r;
    Out(if r.Panicked? then flow.c.st else flow.c.st.(f := FreeSpec(flow.c.st.f, flow.c.detached)), r)
  }

  /** How a planned expression finds its definitions: the game enters every `Defs` element of the
      document; the engine looks below its own `Defs` root while that root is the document element. */
  datatype Reading = GameReading | RootReading

  predicate OnlyNodes(nodes: seq<XNode>) {
    forall i :: 0 <= i < |nodes| ==> nodes[i].XNode?
  }

  function AsNodes(ids: seq<Id>): (nodes: seq<XNode>)
    ensures |nodes| == |ids| && forall i :: 0 <= i < |ids| ==> nodes[i] == XNode(ids[i])
  {
    seq(|ids|, i requires 0 <= i < |ids| => XNode(ids[i]))
  }

  function Finish(f: Forest, defs: seq<Id>, rest: Option<(Forest, seq<Id>) -> Found>): Found {
    match rest
    case None => Found(AsNodes(defs))
    case Some(steps) => steps(f, defs)
  }

  function SelectSpec(reading: Reading, root: Id, f: Forest, xpath: Option<XPath>): Found {
    match xpath
    case None => EvalError
    case Some(Malformed) => EvalError
    case Some(General(eval)) => eval(f)
    case Some(Planned(keys, rest)) =>
      var whole := Finish(f, ScanDocument(KidsOf(f, DOC), keys), rest);
      if reading.GameReading? || !Usable(f, root) then whole
      else
        var found := Finish(f, ScanDefs(KidsOf(f, root), keys), rest);
        if found.Found? && !OnlyNodes(found.nodes) then whole else found
  }

  /** The evaluation itself can panic. */
  function Select(reading: Reading, root: Id, st: St, xpath: Option<XPath>): (St, Option<Found>) {
    if Blown(st.fuse) then (st, None)
    else (st.(fuse := Burn(st.fuse)), Some(SelectSpec(reading, root, st.f, xpath)))
  }

  function OpSpec(reading: Reading, root: Id, env: Env, st: St, op: PatchOp): Out
    decreases op, 1
  {
    var out := WorkerSpec(reading, root, env, st, op);
    if out.r.Done? then out.(r := Done(Rewrite(op.success, out.r.ok))) else out
  }

  function WorkerSpec(reading: Reading, root: Id, env: Env, st: St, op: PatchOp): Out
    decreases op, 0
  {
    match op.kind
    case Base => Out(st, Done(false))
    case Unknown => Out(st, Done(false))
    case Edit(xpath, leaf) =>
      if !Ready(leaf) then Out(st, Raised)
      else
        var (st', found) := Select(reading, root, st, xpath);
        if found.None? then Out(st', Panicked)
        else if found.value.EvalError? then Out(st', Raised)
        else LeafSpec(env, leaf, st', found.value.nodes)
    case Test(xpath) =>
      var (st', found) := Select(reading, root, st, xpath);
      if found.None? then Out(st', Panicked)
      else if found.value.EvalError? then Out(st', Raised)
      else Out(st', Done(found.value.nodes != []))
    case Conditional(xpath, onMatch, onNomatch) =>
      var (st', found) := Select(reading, root, st, xpath);
      if found.None? then Out(st', Panicked)
      else if found.value.EvalError? then Out(st', Raised)
      else BranchSpec(reading, root, env, st', op, found.value.nodes != [], true)
    case FindMod(mods, onMatch, onNomatch) =>
      BranchSpec(reading, root, env, st, op, exists i :: 0 <= i < |mods| && mods[i] in env.modNames, false)
    case Setting(setting, onMatch, onNomatch) =>
      if setting.None? then Out(st, Done(false))
      else BranchSpec(reading, root, env, st, op, setting.value, true)
    case Sequence(given, operations) =>
      if !given then Out(st, Raised)
      else SequenceSpec(reading, root, env, st, operations)
  }

  /** The branch of a conditional; without a branch to run, a missing `match` makes the result say
      whether there is a `nomatch` (not for `FindMod`, whose result is then true). */
  function BranchSpec(reading: Reading, root: Id, env: Env, st: St, op: PatchOp, found: bool, strict: bool): Out
    requires op.kind.Conditional? || op.kind.FindMod? || op.kind.Setting?
    decreases op, 0, 0
  {
    var branch := if found then op.kind.onMatch else op.kind.onNomatch;
    match branch
    case Some(o) => OpSpec(reading, root, env, st, o)
    case None => Out(st, Done(if strict && op.kind.onMatch.None? then op.kind.onNomatch.Some? else true))
  }

  function SequenceSpec(reading: Reading, root: Id, env: Env, st: St, ops: seq<PatchOp>): Out
    decreases ops, 0
  {
    if ops == [] then Out(st, Done(true))
    else
      var out := OpSpec(reading, root, env, st, ops[0]);
      if out.r == Done(true) then SequenceSpec(reading, root, env, out.st, ops[1..]) else out
  }

  // ---------------------------------------------------------------- all patches

  /** One top-level operation and where, if anywhere, it panics. */
  datatype Scheduled = Scheduled(op: PatchOp, fuse: int)

  datatype Event = Event(result: bool, failed: bool)

  function EventOf(r: Outcome): Event {
    if r.Done? then Event(r.ok, false) else Event(false, true)
  }

  datatype Report = Report(f: Forest, issued: Id, events: seq<Event>)

  /** Every top-level operation is isolated: whatever happens in it, the next one runs. */
  function PatchesSpec(reading: Reading, root: Id, env: Env, f: Forest, issued: Id, ops: seq<Scheduled>): Report
    decreases |ops|
  {
    if ops == [] then Report(f, issued, [])
    else
      var out := OpSpec(reading, root, env, St(f, issued, ops[0].fuse), ops[0].op);
      var rest := PatchesSpec(reading, root, env, out.st.f, out.st.issued, ops[1..]);
      rest.(events := [EventOf(out.r)] + rest.events)
  }
}
