/** The annotation list of the editor: the ordered annotations, the running
    `counter` kept beside them, and the selected index. Placing appends at
    index `counter` while fewer than `MaxCounter` exist; deleting drops one
    entry; the title and info panels edit one field of one entry. */
module Annotations {
  import opened Base
  import Lists

  /** One annotation: the surface point it marks and its two text fields. */
  datatype Annotation = Annotation(position: Vec3, title: string, info: string)

  /** `annotations`, `counter` and `selectedAnnotation` of the editor. The
      counter is a separate piece of state, not the list's length. */
  datatype Store = Store(annotations: seq<Annotation>, counter: int, selected: int)

  /** The state on start-up: no annotations, counter 0, and the selection
      initialised to `counter - 1`. */
  function Initial(): (r: Store)
    ensures Valid(r) && r.selected == -1
  {
    Store([], 0, -1)
  }

  /** The counter agrees with the list, and the list is within capacity. */
  predicate Valid(st: Store)
  {
    st.counter == |st.annotations| <= MaxCounter
  }

  /** The weaker fact every handler keeps, even a delete with an index outside
      the list: the counter never exceeds the capacity or the list's length. */
  predicate CounterBounded(st: Store)
  {
    st.counter <= MaxCounter && st.counter <= |st.annotations|
  }

  /** The JavaScript assignment `list[k] = x`: inside the list it replaces entry
      `k`, at the end it appends, and at a negative `k` it sets a property that
      is not a list element, leaving the list as it was. (Writing past the end
      would leave holes; `CounterBounded` shows the editor never does.) */
  function StoreAt(s: seq<Annotation>, k: int, x: Annotation): (r: seq<Annotation>)
    ensures 0 <= k <= |s| ==> k < |r| && r[k] == x
    ensures 0 <= k < |s| ==> |r| == |s|
    ensures k == |s| ==> |r| == |s| + 1
    ensures |s| <= |r| && forall j :: 0 <= j < |s| && j != k ==> r[j] == s[j]
    ensures (k < 0 || k > |s|) ==> r == s
  {
    if 0 <= k < |s| then s[k := x]
    else if k == |s| then s + [x]
    else s
  }

  /** `handlePlaceAnnotation`: below capacity, a blank annotation at `n` is
      stored at index `counter`, the counter goes up and the new entry is
      selected; at capacity nothing changes. */
  function Place(st: Store, n: Vec3): (r: Store)
    ensures st.counter < MaxCounter ==> r.counter == st.counter + 1 && r.selected == st.counter
    ensures st.counter >= MaxCounter ==> r == st
    ensures Valid(st) && st.counter < MaxCounter ==>
              r.annotations == st.annotations + [Annotation(n, "", "")]
    ensures Valid(st) ==> Valid(r)
    ensures CounterBounded(st) ==> CounterBounded(r)
  {
    if st.counter < MaxCounter then
      Store(StoreAt(st.annotations, st.counter, Annotation(n, "", "")), st.counter + 1, st.counter)
    else st
  }

  /** `handleDeleteAnnotation(i)`: the counter goes down by one and the entry
      at `i` is filtered out (the filter compares references, which on the
      editor's distinct entries is removal at `i`, see `Lists.FilterOutIsRemoveAt`).
      The selection is left as it was. */
  function Delete(st: Store, i: int): (r: Store)
    ensures r.counter == st.counter - 1
    ensures r.selected == st.selected
    ensures 0 <= i < |st.annotations| ==> |r.annotations| == |st.annotations| - 1
    ensures 0 <= i < |st.annotations| ==>
              (forall k :: 0 <= k < i ==> r.annotations[k] == st.annotations[k]) &&
              (forall k :: i <= k < |r.annotations| ==> r.annotations[k] == st.annotations[k + 1])
    ensures !(0 <= i < |st.annotations|) ==> r.annotations == st.annotations
    ensures Valid(st) && 0 <= i < |st.annotations| ==> Valid(r)
    ensures Valid(st) && !(0 <= i < |st.annotations|) ==> !Valid(r)
    ensures CounterBounded(st) ==> CounterBounded(r)
  {
    Store(Lists.RemoveAt(st.annotations, i), st.counter - 1, st.selected)
  }

  /** `handleChangeTitle(e, index)`: only the title of entry `index` changes. */
  function SetTitle(st: Store, index: int, text: string): (r: Store)
    ensures |r.annotations| == |st.annotations|
    ensures r.counter == st.counter && r.selected == st.selected
    ensures forall k :: 0 <= k < |st.annotations| && k != index ==> r.annotations[k] == st.annotations[k]
    ensures 0 <= index < |st.annotations| ==>
              r.annotations[index].title == text &&
              r.annotations[index].info == st.annotations[index].info &&
              r.annotations[index].position == st.annotations[index].position
  {
    st.(annotations := Lists.MapAt(st.annotations, index, (a: Annotation) => a.(title := text)))
  }

  /** `handleChangeInfo(e, index)`: only the info text of entry `index` changes. */
  function SetInfo(st: Store, index: int, text: string): (r: Store)
    ensures |r.annotations| == |st.annotations|
    ensures r.counter == st.counter && r.selected == st.selected
    ensures forall k :: 0 <= k < |st.annotations| && k != index ==> r.annotations[k] == st.annotations[k]
    ensures 0 <= index < |st.annotations| ==>
              r.annotations[index].info == text &&
              r.annotations[index].title == st.annotations[index].title &&
              r.annotations[index].position == st.annotations[index].position
  {
    st.(annotations := Lists.MapAt(st.annotations, index, (a: Annotation) => a.(info := text)))
  }

  /** `handleSelectAnnotation(i)` and the settings panel's click: select `i`. */
  function Select(st: Store, i: int): (r: Store)
    ensures r.selected == i
    ensures r.annotations == st.annotations && r.counter == st.counter
  {
    st.(selected := i)
  }

  /** The annotation operations a user can trigger from the editor. */
  datatype Op =
    | PlaceOp(n: Vec3)
    | DeleteOp(i: int)
    | TitleOp(index: int, text: string)
    | InfoOp(index: int, text: string)
    | SelectOp(i: int)

  /** Whether the interface offers `op` in state `st`: the delete, title and
      info controls are rendered once per listed annotation, so their index is
      always one of the list's. */
  predicate Offered(st: Store, op: Op)
  {
    match op
    case PlaceOp(_) => true
    case DeleteOp(i) => 0 <= i < |st.annotations|
    case TitleOp(index, _) => 0 <= index < |st.annotations|
    case InfoOp(index, _) => 0 <= index < |st.annotations|
    case SelectOp(_) => true
  }

  function Apply(st: Store, op: Op): Store
  {
    match op
    case PlaceOp(n) => Place(st, n)
    case DeleteOp(i) => Delete(st, i)
    case TitleOp(index, text) => SetTitle(st, index, text)
    case InfoOp(index, text) => SetInfo(st, index, text)
    case SelectOp(i) => Select(st, i)
  }

  /** Runs the operations the interface offers, skipping any it would not. */
  function Run(st: Store, ops: seq<Op>): Store
    decreases |ops|
  {
    if |ops| == 0 then st
    else Run(if Offered(st, ops[0]) then Apply(st, ops[0]) else st, ops[1..])
  }

  /** From start-up, every sequence of offered operations keeps the counter
      equal to the number of annotations, and so at most `MaxCounter`. */
  lemma {:induction false} RunKeepsValid(st: Store, ops: seq<Op>)
    requires Valid(st)
    ensures Valid(Run(st, ops))
    ensures Run(st, ops).counter <= MaxCounter
    decreases |ops|
  {
    if |ops| > 0 {
      var next := if Offered(st, ops[0]) then Apply(st, ops[0]) else st;
      assert Valid(next) by {
        if Offered(st, ops[0]) {
          match ops[0]
          case PlaceOp(n) =>
          case DeleteOp(i) =>
          case TitleOp(index, text) =>
          case InfoOp(index, text) =>
          case SelectOp(i) =>
        }
      }
      RunKeepsValid(next, ops[1..]);
    }
  }

  /** Even applying every operation regardless of what is offered (a delete
      with an index outside the list included), the counter never exceeds
      `MaxCounter` nor the list's length. */
  lemma {:induction false} AnyOpsKeepCounterBounded(st: Store, ops: seq<Op>)
    requires CounterBounded(st)
    ensures CounterBounded(ApplyAll(st, ops))
    decreases |ops|
  {
    if |ops| > 0 {
      var next := Apply(st, ops[0]);
      assert CounterBounded(next) by {
        match ops[0]
        case PlaceOp(n) =>
        case DeleteOp(i) =>
        case TitleOp(index, text) =>
        case InfoOp(index, text) =>
        case SelectOp(i) =>
      }
      AnyOpsKeepCounterBounded(next, ops[1..]);
    }
  }

  /** Applies every operation, offered or not. */
  function ApplyAll(st: Store, ops: seq<Op>): Store
    decreases |ops|
  {
    if |ops| == 0 then st else ApplyAll(Apply(st, ops[0]), ops[1..])
  }

  /** Placing at a point and reading the new entry back gives that point. */
  lemma PlaceReadBack(st: Store, n: Vec3)
    requires Valid(st) && st.counter < MaxCounter
    ensures Place(st, n).annotations[st.counter].position == n
    ensures Place(st, n).annotations[Place(st, n).selected] == Annotation(n, "", "")
  {
  }
}
