/** Values, the operands that refer to them and the lists in which each value keeps its uses. An object is named by a
  * number and a pointer to it is that number; the number of a destroyed object is not given out again. */
module UseLists {
  import opened Wrappers
  import opened Sequences

  type Id = int

  /** The null pointer, which is no value. */
  const NULL: Id := -1

  datatype Op = Add | Sub | Mul | Other(code: nat)

  datatype Value =
    | ConstantInt(width: nat, bits: nat)
    | Instruction(op: Op, width: nat)
    | Plain(width: nat)

  /** The address of an operand slot: slot index of the owner, in a buffer of the owner with room for so many slots. */
  datatype Use = Use(owner: Id, index: nat, room: nat)

  /** operands[i][k] is what slot k of instruction i points to. Lists hold addresses of slots. */
  datatype Graph = Graph(values: map<Id, Value>, operands: map<Id, seq<Id>>, lists: map<Id, seq<Use>>)

  /** The room of the buffer that holds n slots: four inside the object, doubled whenever that is not enough. */
  function Room(n: nat): (r: nat)
    ensures r >= 4 && r >= n
  {
    if n <= 4 then 4 else 2 * Room((n + 1) / 2)
  }

  /** A slot more takes a new buffer exactly if the old one is full. */
  lemma {:induction false} RoomGrows(n: nat)
    ensures Room(n + 1) == if n < Room(n) then Room(n) else 2 * Room(n)
    ensures n <= 4 ==> Room(n) == 4
  {
    if n == 4 {
      assert Room(3) == 4 && Room(5) == 2 * Room(3);
    } else if n > 4 {
      if n % 2 == 0 {
        assert (n + 1) / 2 == n / 2 && (n + 2) / 2 == n / 2 + 1;
        RoomGrows(n / 2);
      } else {
        assert (n + 2) / 2 == (n + 1) / 2;
      }
    }
  }

  lemma {:induction false} RoomIncreases(m: nat, n: nat)
    requires m <= n
    ensures Room(m) <= Room(n)
    decreases n - m
  {
    if m < n {
      RoomGrows(m);
      RoomIncreases(m + 1, n);
    }
  }

  /** Where slot k of instruction i is now. */
  function Slot(g: Graph, i: Id, k: nat): Use
    requires i in g.operands
  {
    Use(i, k, Room(|g.operands[i]|))
  }

  /** Where slot k of instruction i was when it was made. */
  function FirstSlot(i: Id, k: nat): Use {
    Use(i, k, Room(k + 1))
  }

  /** A slot is at this address now. */
  predicate IsLive(g: Graph, u: Use) {
    u.owner in g.operands && u.index < |g.operands[u.owner]| && u.room == Room(|g.operands[u.owner]|)
  }

  function Target(g: Graph, u: Use): Id
    requires IsLive(g, u)
  {
    g.operands[u.owner][u.index]
  }

  /** The value that slot k of i points to does not list it. */
  predicate Lost(g: Graph, i: Id, k: nat)
    requires i in g.operands && k < |g.operands[i]|
  {
    var v := g.operands[i][k];
    v in g.lists ==> Slot(g, i, k) !in g.lists[v]
  }

  // ---- What every operation keeps ----

  /** Exactly the instructions have operands, and every value has a list. */
  predicate Keyed(g: Graph) {
    && g.lists.Keys == g.values.Keys && NULL !in g.values
    && (forall i :: i in g.operands ==> i in g.values && g.values[i].Instruction?)
    && (forall i :: i in g.values && g.values[i].Instruction? ==> i in g.operands)
  }

  /** A list that has the address of a slot is that of the value that the slot points to. */
  ghost predicate Sound(g: Graph) {
    forall v, u :: v in g.lists && u in g.lists[v] && IsLive(g, u) ==> Target(g, u) == v
  }

  /** A slot that never moved is in the list of what it points to. */
  predicate Kept(g: Graph) {
    forall i, k | i in g.operands && 0 <= k < |g.operands[i]| && Room(k + 1) == Room(|g.operands[i]|) ::
      g.operands[i][k] in g.lists ==> !Lost(g, i, k)
  }

  /** Listed addresses are or were addresses of slots. */
  predicate Reached(g: Graph) {
    forall v, u :: v in g.lists && u in g.lists[v] && u.owner in g.operands ==>
                     u.index < |g.operands[u.owner]| && 4 <= u.room <= Room(|g.operands[u.owner]|)
  }

  /** No address is listed twice. */
  predicate Unique(g: Graph) {
    && (forall v :: v in g.lists ==> NoDuplicates(g.lists[v]))
    && (forall v, w, u :: v in g.lists && w in g.lists && u in g.lists[v] && u in g.lists[w] ==> v == w)
  }

  ghost predicate Linked(g: Graph) {
    Keyed(g) && Sound(g) && Kept(g) && Reached(g) && Unique(g)
  }

  /** Ids handed out so far are below n. */
  predicate Below(g: Graph, n: Id) {
    && 0 <= n
    && (forall v :: v in g.values ==> v < n)
    && (forall i, k :: i in g.operands && 0 <= k < |g.operands[i]| ==> g.operands[i][k] < n)
    && (forall v, u :: v in g.lists && u in g.lists[v] ==> u.owner < n)
  }

  /** A slot that nobody lists is lost, and the other way round. */
  lemma LostIsUnlisted(g: Graph, i: Id, k: nat)
    requires Linked(g) && i in g.operands && k < |g.operands[i]|
    ensures Lost(g, i, k) <==> forall v :: v in g.lists ==> Slot(g, i, k) !in g.lists[v]
  {
    var u := Slot(g, i, k);
    assert IsLive(g, u) && Target(g, u) == g.operands[i][k];
  }

  // ---- When the lists are what they are for ----

  /** A slot is in a value's list if and only if it points to the value. */
  ghost predicate Agrees(g: Graph) {
    forall v, u: Use :: v in g.lists && u.owner in g.operands ==>
                          (u in g.lists[v] <==> IsLive(g, u) && Target(g, u) == v)
  }

  predicate Few(g: Graph) {
    forall i :: i in g.operands ==> |g.operands[i]| <= 4
  }

  predicate Recorded(g: Graph, u: Use) {
    exists v :: v in g.lists && u in g.lists[v]
  }

  /** Every slot is still listed under the address it was first given, whatever has happened to it since. */
  predicate Remembered(g: Graph) {
    forall i, k :: i in g.operands && 0 <= k < |g.operands[i]| ==> Recorded(g, FirstSlot(i, k))
  }

  lemma FewAgrees(g: Graph)
    requires Linked(g) && Few(g)
    ensures Agrees(g)
  {
    forall v, u: Use | v in g.lists && u.owner in g.operands
      ensures u in g.lists[v] <==> IsLive(g, u) && Target(g, u) == v
    {
      if IsLive(g, u) && Target(g, u) == v {
        assert u == Slot(g, u.owner, u.index) && !Lost(g, u.owner, u.index);
      }
    }
  }

  /** The lists are right if and only if no instruction has more than four operands. */
  lemma AgreesIffFew(g: Graph)
    requires Linked(g) && Remembered(g)
    ensures Agrees(g) <==> Few(g)
  {
    if Few(g) {
      FewAgrees(g);
    }
    if i :| i in g.operands && |g.operands[i]| > 4 {
      var u := FirstSlot(i, 0);
      assert Recorded(g, u) && u.room == 4 < Room(|g.operands[i]|);
      assert !IsLive(g, u);
    }
  }

  // ---- Replacing a value everywhere ----

  function RedirectedAt(g: Graph, i: Id, us: seq<Use>, to: Id): seq<Id>
    requires i in g.operands
  {
    seq(|g.operands[i]|, k requires 0 <= k < |g.operands[i]| => if Slot(g, i, k) in us then to else g.operands[i][k])
  }

  /** Slots of j whose present address is listed point to another value, the others to what they did. */
  predicate Redirects(before: seq<Id>, now: seq<Id>, j: Id, us: seq<Use>, to: Id) {
    |now| == |before|
    && forall k | 0 <= k < |before| :: now[k] == if Use(j, k, Room(|before|)) in us then to else before[k]
  }

  lemma RedirectedIs(g: Graph, us: seq<Use>, to: Id)
    ensures Redirected(g, us, to).Keys == g.operands.Keys
    ensures forall j :: j in g.operands ==> Redirects(g.operands[j], Redirected(g, us, to)[j], j, us, to)
  {
    hide Room;
  }

  lemma AppendedLast(lists: map<Id, seq<Use>>, v: Id, us: seq<Use>)
    ensures v in lists ==> Appended(lists, v, us)[v] == lists[v] + us
  {
  }

  /** The slots at these addresses point to another value. */
  function Redirected(g: Graph, us: seq<Use>, to: Id): map<Id, seq<Id>> {
    map i | i in g.operands :: RedirectedAt(g, i, us, to)
  }

  function Appended(lists: map<Id, seq<Use>>, v: Id, us: seq<Use>): map<Id, seq<Use>> {
    if v in lists then lists[v := lists[v] + us] else lists
  }

  /** Every slot that the one value lists points to the other, whose list takes over. */
  function Replaced(g: Graph, from: Id, to: Id): Graph
    requires from in g.lists
  {
    Graph(g.values, Redirected(g, g.lists[from], to), Appended(g.lists, to, g.lists[from])[from := []])
  }

  lemma ReplacedTargets(g: Graph, from: Id, to: Id)
    requires Linked(g) && from in g.lists
    ensures forall u :: IsLive(Replaced(g, from, to), u) <==> IsLive(g, u)
    ensures forall u :: IsLive(g, u) ==>
      Target(Replaced(g, from, to), u) == if u in g.lists[from] then to else Target(g, u)
    ensures forall u :: IsLive(g, u) && u in g.lists[from] ==> Target(g, u) == from
  {
    forall u | IsLive(g, u)
      ensures Target(Replaced(g, from, to), u) == if u in g.lists[from] then to else Target(g, u)
    {
      assert u == Slot(g, u.owner, u.index);
    }
  }

  lemma ReplacedIsLinked(g: Graph, from: Id, to: Id)
    requires Linked(g) && from in g.values && (to in g.values || to == NULL) && from != to
    ensures Linked(Replaced(g, from, to))
  {
    ReplacedIsSound(g, from, to);
    ReplacedIsKept(g, from, to);
    ReplacedIsUnique(g, from, to);
  }

  lemma ReplacedIsSound(g: Graph, from: Id, to: Id)
    requires Linked(g) && from in g.values && (to in g.values || to == NULL) && from != to
    ensures Sound(Replaced(g, from, to)) && Reached(Replaced(g, from, to))
  {
    ReplacedTargets(g, from, to);
    hide Redirected, Target, Room;
    var h := Replaced(g, from, to);
    forall v, u | v in h.lists && u in h.lists[v] && IsLive(h, u) ensures Target(h, u) == v {
      assert u in g.lists[v] || u in g.lists[from];
    }
  }

  lemma ReplacedIsKept(g: Graph, from: Id, to: Id)
    requires Linked(g) && from in g.values && (to in g.values || to == NULL) && from != to
    ensures Kept(Replaced(g, from, to))
  {
    hide Room;
    var h := Replaced(g, from, to);
    forall i, k | i in h.operands && 0 <= k < |h.operands[i]| && Room(k + 1) == Room(|h.operands[i]|)
                  && h.operands[i][k] in h.lists
      ensures !Lost(h, i, k)
    {
      LostAfter(g, from, to, i, k);
    }
  }

  /** A slot is lost afterwards if and only if it was before, except that replacing by null loses all uses. */
  lemma LostAfter(g: Graph, from: Id, to: Id, i: Id, k: nat)
    requires Linked(g) && from in g.values && (to in g.values || to == NULL) && from != to
    requires i in g.operands && k < |g.operands[i]|
    ensures var h := Replaced(g, from, to); i in h.operands && k < |h.operands[i]|
    ensures to != NULL || !(Slot(g, i, k) in g.lists[from]) ==> (Lost(Replaced(g, from, to), i, k) <==> Lost(g, i, k))
  {
    hide Room;
    var u := Slot(g, i, k);
    assert IsLive(g, u) && u == Slot(Replaced(g, from, to), i, k);
    assert u in g.lists[from] ==> Target(g, u) == from;
  }

  lemma ReplacedIsUnique(g: Graph, from: Id, to: Id)
    requires Linked(g) && from in g.values && (to in g.values || to == NULL) && from != to
    ensures Unique(Replaced(g, from, to))
  {
    if to in g.lists {
      AppendedNoDuplicates(g.lists[to], g.lists[from]);
    }
  }

  lemma ReplacedIsRemembered(g: Graph, from: Id, to: Id)
    requires Remembered(g) && from in g.lists && to in g.lists && from != to
    ensures Remembered(Replaced(g, from, to))
  {
    hide Room;
    var h := Replaced(g, from, to);
    forall i, k | i in h.operands && 0 <= k < |h.operands[i]| ensures Recorded(h, FirstSlot(i, k)) {
      assert Recorded(g, FirstSlot(i, k));
      var v :| v in g.lists && FirstSlot(i, k) in g.lists[v];
      assert v == from ==> FirstSlot(i, k) in h.lists[to];
      assert v != from ==> FirstSlot(i, k) in h.lists[v];
    }
  }

  // ---- Destroying an instruction ----

  /** The instruction, its list and its slots are gone; the lists of what it pointed to still name those slots. */
  function Destroyed(g: Graph, i: Id): Graph {
    Graph(g.values - {i}, g.operands - {i}, g.lists - {i})
  }

  lemma DestroyedIsLinked(g: Graph, i: Id)
    requires Linked(g) && i in g.operands
    ensures Linked(Destroyed(g, i))
    ensures Remembered(g) && g.lists[i] == [] ==> Remembered(Destroyed(g, i))
  {
    hide Room;
    var h := Destroyed(g, i);
    forall v, u | v in h.lists && u in h.lists[v] && IsLive(h, u) ensures Target(h, u) == v {
      assert IsLive(g, u);
    }
    assert forall j, k :: j in h.operands && 0 <= k < |h.operands[j]| ==> Slot(h, j, k) == Slot(g, j, k);
    if Remembered(g) && g.lists[i] == [] {
      forall j, k | j in h.operands && 0 <= k < |h.operands[j]| ensures Recorded(h, FirstSlot(j, k)) {
        assert Recorded(g, FirstSlot(j, k));
        var v :| v in g.lists && FirstSlot(j, k) in g.lists[v];
        assert v in h.lists;
      }
    }
  }

  // ---- Blocks ----

  /** Blocks hold instructions, each in one place. */
  predicate Placed(g: Graph, blocks: seq<seq<Id>>) {
    && (forall b, k :: 0 <= b < |blocks| && 0 <= k < |blocks[b]| ==> blocks[b][k] in g.operands)
    && (forall b :: 0 <= b < |blocks| ==> NoDuplicates(blocks[b]))
    && (forall b, c, i :: 0 <= b < c < |blocks| && i in blocks[b] ==> i !in blocks[c])
  }

  // ---- What the other operations keep ----

  function Created(g: Graph, id: Id, v: Value): Graph {
    Graph(g.values[id := v], if v.Instruction? then g.operands[id := []] else g.operands, g.lists[id := []])
  }

  lemma CreatedIsLinked(g: Graph, id: Id, v: Value)
    requires Linked(g) && Below(g, id)
    ensures Linked(Created(g, id, v))
  {
    hide Room;
    assert id !in g.values && id !in g.operands;
    var h := Created(g, id, v);
    assert forall u: Use :: IsLive(h, u) <==> IsLive(g, u);
    assert Kept(h) by { CreatedKeepsLost(g, id, v); }
  }

  lemma CreatedKeepsRest(g: Graph, id: Id, v: Value, blocks: seq<seq<Id>>)
    requires Below(g, id) && Placed(g, blocks)
    ensures Below(Created(g, id, v), id + 1) && Placed(Created(g, id, v), blocks)
  {
  }

  lemma CreatedKeepsLost(g: Graph, id: Id, v: Value)
    requires Linked(g) && Below(g, id)
    ensures forall i, k :: i in g.operands && 0 <= k < |g.operands[i]| ==>
              (Lost(Created(g, id, v), i, k) <==> Lost(g, i, k))
    ensures Remembered(g) ==> Remembered(Created(g, id, v))
  {
    hide Room, FirstSlot;
    var h := Created(g, id, v);
    assert id !in g.operands && id !in g.lists;
    forall i, k | i in g.operands && 0 <= k < |g.operands[i]| ensures Lost(h, i, k) <==> Lost(g, i, k) {
      assert Slot(h, i, k) == Slot(g, i, k);
    }
    forall i, k | Remembered(g) && i in g.operands && 0 <= k < |g.operands[i]| ensures Recorded(h, FirstSlot(i, k)) {
      assert Recorded(g, FirstSlot(i, k));
      var w :| w in g.lists && FirstSlot(i, k) in g.lists[w];
      assert w in h.lists && h.lists[w] == g.lists[w];
    }
  }

  /** One more operand; what it points to, if anything, lists the address that the slot has then. */
  function Added(g: Graph, i: Id, v: Id): Graph
    requires i in g.operands
  {
    var n := |g.operands[i]|;
    Graph(g.values, g.operands[i := g.operands[i] + [v]], Appended(g.lists, v, [Use(i, n, Room(n + 1))]))
  }

  lemma AddedLists(g: Graph, i: Id, v: Id)
    requires Linked(g) && i in g.operands && (v in g.values || v == NULL)
    ensures var u, h := Use(i, |g.operands[i]|, Room(|g.operands[i]| + 1)), Added(g, i, v);
            h.lists.Keys == g.lists.Keys
            && (forall w :: w in g.lists ==> u !in g.lists[w] && NoDuplicates(h.lists[w]))
            && (forall w, t :: w in g.lists ==> (t in h.lists[w] <==> t in g.lists[w] || (w == v && t == u)))
  {
    hide Room;
    if v in g.lists {
      AppendedNoDuplicates(g.lists[v], [Use(i, |g.operands[i]|, Room(|g.operands[i]| + 1))]);
    }
  }

  lemma AddedIsSound(g: Graph, i: Id, v: Id)
    requires Linked(g) && i in g.operands && (v in g.values || v == NULL)
    ensures Sound(Added(g, i, v))
  {
    var h, n := Added(g, i, v), |g.operands[i]|;
    AddedLists(g, i, v);
    RoomIncreases(n, n + 1);
    hide Room;
    forall w, t | w in h.lists && t in h.lists[w] && IsLive(h, t) ensures Target(h, t) == w {
      if t != Use(i, n, Room(n + 1)) {
        assert t in g.lists[w] && IsLive(g, t) && Target(g, t) == w;
      }
    }
  }

  lemma AddedIsKept(g: Graph, i: Id, v: Id)
    requires Linked(g) && i in g.operands && (v in g.values || v == NULL)
    ensures Kept(Added(g, i, v))
  {
    var h, n := Added(g, i, v), |g.operands[i]|;
    AddedLists(g, i, v);
    hide Room;
    forall j, k | j in h.operands && 0 <= k < |h.operands[j]| && Room(k + 1) == Room(|h.operands[j]|)
                  && h.operands[j][k] in h.lists
      ensures !Lost(h, j, k)
    {
      if j == i && k < n {
        RoomIncreases(k + 1, n);
        RoomIncreases(n, n + 1);
        assert !Lost(g, i, k) && Slot(g, i, k) == Slot(h, i, k);
      } else if j != i {
        assert !Lost(g, j, k) && Slot(g, j, k) == Slot(h, j, k);
      }
    }
  }

  lemma AddedIsLinked(g: Graph, i: Id, v: Id)
    requires Linked(g) && i in g.operands && (v in g.values || v == NULL)
    ensures Linked(Added(g, i, v))
    ensures Remembered(g) && v != NULL ==> Remembered(Added(g, i, v))
  {
    var h, n := Added(g, i, v), |g.operands[i]|;
    AddedLists(g, i, v);
    AddedIsSound(g, i, v);
    AddedIsKept(g, i, v);
    RoomIncreases(n, n + 1);
    hide Room, Sound, Kept;
    if Remembered(g) && v != NULL {
      forall j, k | j in h.operands && 0 <= k < |h.operands[j]| ensures Recorded(h, FirstSlot(j, k)) {
        if j == i && k == n {
          assert Use(i, n, Room(n + 1)) in h.lists[v];
        } else {
          StillRecorded(g, h, FirstSlot(j, k));
        }
      }
    }
  }

  lemma StillRecorded(g: Graph, h: Graph, u: Use)
    requires Recorded(g, u) && h.lists.Keys == g.lists.Keys
    requires forall v :: v in g.lists && u in g.lists[v] ==> u in h.lists[v]
    ensures Recorded(h, u)
  {
  }

  function Dropped(lists: map<Id, seq<Use>>, v: Id, u: Use): map<Id, seq<Use>> {
    if v in lists then lists[v := Without(lists[v], u)] else lists
  }

  /** A slot points to something else: its address leaves one list, if it is there, and goes to the end of another. */
  function Assigned(g: Graph, i: Id, k: nat, v: Id): Graph
    requires i in g.operands && k < |g.operands[i]|
  {
    var ops, u := g.operands[i], Slot(g, i, k);
    if ops[k] == v then g
    else Graph(g.values, g.operands[i := ops[k := v]], Appended(Dropped(g.lists, ops[k], u), v, [u]))
  }

  lemma AssignedLists(g: Graph, i: Id, k: nat, v: Id)
    requires Linked(g) && i in g.operands && k < |g.operands[i]| && (v in g.values || v == NULL)
             && g.operands[i][k] != v
    ensures var u, h := Slot(g, i, k), Assigned(g, i, k, v);
            h.lists.Keys == g.lists.Keys
            && (forall w :: w in g.lists ==> NoDuplicates(h.lists[w]))
            && (forall w, t :: w in g.lists ==>
                (t in h.lists[w] <==> (t in g.lists[w] && t != u) || (w == v && t == u)))
  {
    hide Room;
    var u, w := Slot(g, i, k), g.operands[i][k];
    assert IsLive(g, u) && Target(g, u) == w;
    if w in g.lists {
      WithoutKeeps(g.lists[w], u);
    }
    if v in g.lists {
      AppendedNoDuplicates(g.lists[v], [u]);
    }
  }

  lemma AssignedIsLinked(g: Graph, i: Id, k: nat, v: Id)
    requires Linked(g) && i in g.operands && k < |g.operands[i]| && (v in g.values || v == NULL)
    ensures Linked(Assigned(g, i, k, v))
  {
    if g.operands[i][k] != v {
      AssignedLists(g, i, k, v);
      AssignedIsSound(g, i, k, v);
      AssignedIsKept(g, i, k, v);
      hide Room, Appended, Dropped, Sound, Kept;
    }
  }

  lemma AssignedIsSound(g: Graph, i: Id, k: nat, v: Id)
    requires Linked(g) && i in g.operands && k < |g.operands[i]| && (v in g.values || v == NULL)
             && g.operands[i][k] != v
    ensures Sound(Assigned(g, i, k, v))
  {
    AssignedLists(g, i, k, v);
    hide Room, Appended, Dropped;
    var h, u := Assigned(g, i, k, v), Slot(g, i, k);
    forall w, t | w in h.lists && t in h.lists[w] && IsLive(h, t) ensures Target(h, t) == w {
      assert IsLive(g, t);
      assert t != u ==> t in g.lists[w] && Target(g, t) == w;
    }
  }

  lemma AssignedIsRemembered(g: Graph, i: Id, k: nat, v: Id)
    requires Linked(g) && i in g.operands && k < |g.operands[i]| && v in g.values && Remembered(g)
    ensures Remembered(Assigned(g, i, k, v))
  {
    if g.operands[i][k] != v {
      AssignedLists(g, i, k, v);
      hide Room, Appended, Dropped, FirstSlot;
      var h, u := Assigned(g, i, k, v), Slot(g, i, k);
      forall j, m | j in h.operands && 0 <= m < |h.operands[j]| ensures Recorded(h, FirstSlot(j, m)) {
        if FirstSlot(j, m) == u {
          assert u in h.lists[v];
        } else {
          StillRecorded(g, h, FirstSlot(j, m));
        }
      }
    }
  }

  lemma AssignedIsKept(g: Graph, i: Id, k: nat, v: Id)
    requires Linked(g) && i in g.operands && k < |g.operands[i]| && (v in g.values || v == NULL)
             && g.operands[i][k] != v
    ensures Kept(Assigned(g, i, k, v))
  {
    AssignedLists(g, i, k, v);
    hide Room, Appended, Dropped;
    var h := Assigned(g, i, k, v);
    forall j, m | j in h.operands && 0 <= m < |h.operands[j]| && Room(m + 1) == Room(|h.operands[j]|)
                  && h.operands[j][m] in h.lists
      ensures !Lost(h, j, m)
    {
      assert Slot(h, j, m) == Slot(g, j, m);
      assert j != i || m != k ==> !Lost(g, j, m);
    }
  }

  lemma AssignedKeepsRest(g: Graph, i: Id, k: nat, v: Id, n: Id, blocks: seq<seq<Id>>)
    requires Linked(g) && i in g.operands && k < |g.operands[i]| && (v in g.values || v == NULL)
    requires Below(g, n) && Placed(g, blocks)
    ensures Below(Assigned(g, i, k, v), n) && Placed(Assigned(g, i, k, v), blocks)
  {
    if g.operands[i][k] != v {
      AssignedLists(g, i, k, v);
      hide Room, Appended, Dropped;
    }
  }

  lemma MoveOne(g: Graph, now: map<Id, seq<Id>>, us: seq<Use>, u: Use, to: Id)
    requires now == Redirected(g, us, to)
    ensures IsLive(g, u) ==> u.owner in now && u.index < |now[u.owner]|
    ensures Redirected(g, us + [u], to) == if IsLive(g, u) then now[u.owner := now[u.owner][u.index := to]] else now
  {
    hide Room;
    var next := if IsLive(g, u) then now[u.owner := now[u.owner][u.index := to]] else now;
    forall i | i in g.operands ensures next[i] == RedirectedAt(g, i, us + [u], to) {
      forall k | 0 <= k < |g.operands[i]| ensures next[i][k] == RedirectedAt(g, i, us + [u], to)[k] {
        assert Slot(g, i, k) == u <==> IsLive(g, u) && u.owner == i && u.index == k;
      }
    }
  }

  lemma NoneMoved(g: Graph, to: Id)
    ensures Redirected(g, [], to) == g.operands && Appended(g.lists, to, []) == g.lists
  {
    assert to in g.lists ==> g.lists[to] + [] == g.lists[to];
    forall i | i in g.operands ensures g.operands[i] == RedirectedAt(g, i, [], to) {
    }
  }

  lemma ReplacedKeepsRest(g: Graph, from: Id, to: Id, n: Id, blocks: seq<seq<Id>>)
    requires Linked(g) && from in g.values && (to in g.values || to == NULL) && Below(g, n) && Placed(g, blocks)
    ensures Below(Replaced(g, from, to), n) && Placed(Replaced(g, from, to), blocks)
  {
    hide Room;
    assert to < n;
  }

  lemma DestroyedKeepsRest(g: Graph, i: Id, n: Id, blocks: seq<seq<Id>>)
    requires Below(g, n) && Placed(g, blocks) && NowhereIn(blocks, i)
    ensures Below(Destroyed(g, i), n) && Placed(Destroyed(g, i), blocks)
  {
    forall c, k | 0 <= c < |blocks| && 0 <= k < |blocks[c]| ensures blocks[c][k] in g.operands && blocks[c][k] != i {
      assert blocks[c][k] in blocks[c];
    }
  }

  // ---- Moving instructions in and out of blocks ----

  predicate NowhereIn(blocks: seq<seq<Id>>, i: Id) {
    forall b :: 0 <= b < |blocks| ==> i !in blocks[b]
  }

  function InsertedAt(s: seq<Id>, k: nat, x: Id): seq<Id>
    requires k <= |s|
  {
    s[..k] + [x] + s[k..]
  }

  lemma InsertedElements(s: seq<Id>, k: nat, x: Id)
    requires k <= |s| && x !in s && NoDuplicates(s)
    ensures NoDuplicates(InsertedAt(s, k, x)) && forall y :: y in InsertedAt(s, k, x) <==> y == x || y in s
  {
    var t := InsertedAt(s, k, x);
    forall y ensures y in t <==> y == x || y in s {
      assert s == s[..k] + s[k..];
    }
    forall i, j | 0 <= i < j < |t| ensures t[i] != t[j] {
      assert forall m :: 0 <= m < |t| ==> t[m] == if m < k then s[m] else if m == k then x else s[m - 1];
    }
  }

  lemma InsertedIsPlaced(g: Graph, blocks: seq<seq<Id>>, b: nat, k: nat, i: Id)
    requires Placed(g, blocks) && b < |blocks| && k <= |blocks[b]| && i in g.operands && NowhereIn(blocks, i)
    ensures Placed(g, blocks[b := InsertedAt(blocks[b], k, i)])
    ensures k == |blocks[b]| ==> InsertedAt(blocks[b], k, i) == blocks[b] + [i]
  {
    InsertedElements(blocks[b], k, i);
    var now := blocks[b := InsertedAt(blocks[b], k, i)];
    forall c, j | 0 <= c < |now| && 0 <= j < |now[c]| ensures now[c][j] in g.operands {
      assert now[c][j] in now[c];
      assert now[c][j] == i || now[c][j] in blocks[c];
    }
  }

  lemma RemovedIsPlaced(g: Graph, blocks: seq<seq<Id>>, b: nat, i: Id)
    requires Placed(g, blocks) && b < |blocks|
    ensures Placed(g, blocks[b := Without(blocks[b], i)])
    ensures i in blocks[b] ==> NowhereIn(blocks[b := Without(blocks[b], i)], i)
  {
    WithoutKeeps(blocks[b], i);
    var now := blocks[b := Without(blocks[b], i)];
    forall c, j | 0 <= c < |now| && 0 <= j < |now[c]| ensures now[c][j] in g.operands {
      assert now[c][j] in now[c];
      assert now[c][j] in blocks[c];
    }
  }

  lemma KeysOf(g: Graph)
    requires Linked(g)
    ensures g.lists.Keys == g.values.Keys && NULL !in g.values
    ensures forall i :: i in g.operands <==> i in g.values && g.values[i].Instruction?
  {
  }

  lemma FreshId(g: Graph, id: Id)
    requires Below(g, id)
    ensures id !in g.values
  {
  }

  lemma AddedKeepsRest(g: Graph, i: Id, v: Id, n: Id, blocks: seq<seq<Id>>)
    requires Linked(g) && i in g.operands && (v in g.values || v == NULL) && Below(g, n) && Placed(g, blocks)
    ensures Below(Added(g, i, v), n) && Placed(Added(g, i, v), blocks)
  {
    AddedLists(g, i, v);
    hide Room, Appended;
  }

  lemma AppendOne(lists: map<Id, seq<Use>>, v: Id, us: seq<Use>, u: Use)
    ensures Appended(lists, v, us + [u])
            == if v in lists then Appended(lists, v, us)[v := Appended(lists, v, us)[v] + [u]] else lists
    ensures Appended(lists, v, us).Keys == lists.Keys
  {
    if v in lists {
      assert lists[v] + (us + [u]) == lists[v] + us + [u];
    }
  }

  lemma SameLiveness(g: Graph, now: map<Id, seq<Id>>, us: seq<Use>, u: Use, to: Id)
    requires now == Redirected(g, us, to)
    ensures forall values, lists :: IsLive(Graph(values, now, lists), u) <==> IsLive(g, u)
  {
    hide Room;
  }

  // ---- The module ----

  class IRModule {
    var values: map<Id, Value>
    var operands: map<Id, seq<Id>>
    var lists: map<Id, seq<Use>>
    var blocks: seq<seq<Id>>
    var next: Id

    function State(): Graph
      reads this
    {
      Graph(values, operands, lists)
    }

    /** Also, every block holds instructions, each in one place. */
    ghost predicate Valid()
      reads this
    {
      Linked(State()) && Below(State(), next) && Placed(State(), blocks)
    }

    constructor ()
      ensures Valid() && State() == Graph(map[], map[], map[]) && blocks == [] && next == 0 && Remembered(State())
    {
      values, operands, lists, blocks, next := map[], map[], map[], [], 0;
    }

    /** A new value that nothing refers to yet. */
    method NewValue(v: Value) returns (id: Id)
      requires Valid()
      modifies this`values, this`operands, this`lists, this`next
      ensures Valid() && id == old(next) && id !in old(values)
      ensures State() == Created(old(State()), id, v) && next == old(next) + 1
      ensures old(Remembered(State())) ==> Remembered(State())
    {
      hide Linked, Below, Placed, Remembered;
      id := next;
      values := values[id := v];
      lists := lists[id := []];
      if v.Instruction? {
        operands := operands[id := []];
      }
      next := next + 1;
      CreatedIsLinked(old(State()), id, v);
      CreatedKeepsRest(old(State()), id, v, blocks);
      CreatedKeepsLost(old(State()), id, v);
      FreshId(old(State()), id);
    }

    /** The slot enters the list of what it points to, under the address it has when it is made. Should that take a new
      * buffer, the slots made before move there, and the lists that name their old addresses are left as they are. */
    method AddOperand(i: Id, v: Id)
      requires Valid() && i in operands && (v in values || v == NULL)
      modifies this`operands, this`lists
      ensures Valid()
      ensures State() == Added(old(State()), i, v)
      ensures operands == old(operands)[i := old(operands[i]) + [v]]
      ensures v != NULL ==>
        lists == old(lists)[v := old(lists[v]) + [Use(i, |old(operands[i])|, Room(|old(operands[i])| + 1))]]
      ensures v != NULL && old(Remembered(State())) ==> Remembered(State())
    {
      hide Linked, Below, Placed, Remembered, Room;
      KeysOf(State());
      var n := |operands[i]|;
      operands := operands[i := operands[i] + [v]];
      if v != NULL {
        lists := lists[v := lists[v] + [Use(i, n, Room(n + 1))]];
      }
      AddedIsLinked(old(State()), i, v);
      AddedKeepsRest(old(State()), i, v, next, blocks);
    }

    /** Removes the first entry that is this address. */
    method RemoveUse(v: Id, u: Use)
      requires v in lists
      modifies this`lists
      ensures lists == old(lists)[v := Without(old(lists[v]), u)]
    {
      var list := lists[v];
      var k := 0;
      while k < |list| && list[k] != u
        invariant k <= |list| && u !in list[..k]
      {
        k := k + 1;
      }
      WithoutAt(list, u, k);
      if k < |list| {
        list := list[..k] + list[k + 1..];
      }
      lists := lists[v := list];
    }

    /** What the slot pointed to may be null or destroyed. */
    method SetOperand(i: Id, k: nat, v: Id)
      requires Valid() && i in operands && k < |operands[i]| && (v in values || v == NULL)
      modifies this`operands, this`lists
      ensures Valid()
      ensures State() == Assigned(old(State()), i, k, v)
      ensures operands == old(operands)[i := old(operands[i])[k := v]]
      ensures v != NULL && old(operands[i][k]) != v ==>
        lists[v] == old(lists[v]) + [Use(i, k, Room(|old(operands[i])|))]
      ensures v != NULL && old(Remembered(State())) ==> Remembered(State())
    {
      hide Linked, Below, Placed, Remembered, Room;
      AssignedIsLinked(State(), i, k, v);
      if v != NULL && Remembered(State()) {
        AssignedIsRemembered(State(), i, k, v);
      }
      AssignedKeepsRest(State(), i, k, v, next, blocks);
      KeysOf(State());
      var u := Use(i, k, Room(|operands[i]|));
      var w := operands[i][k];
      if w == v {
        assert operands[i][k := v] == operands[i];
        return;
      }
      if w in values {
        RemoveUse(w, u);
      }
      operands := operands[i := operands[i][k := v]];
      if v != NULL {
        lists := lists[v := lists[v] + [u]];
      }
    }

    /** Every slot whose address the value lists points to the other, whose list takes over. Addresses at which there
      * is no slot any more are passed on as well, but writing to them changes no operand. */
    method ReplaceAllUsesWith(v: Id, new_: Id)
      requires Valid() && v in values && (new_ in values || new_ == NULL) && v != new_
      modifies this`operands, this`lists
      ensures Valid()
      ensures State() == Replaced(old(State()), v, new_)
      ensures operands.Keys == old(operands.Keys)
      ensures forall j :: j in operands ==> Redirects(old(operands[j]), operands[j], j, old(lists[v]), new_)
      ensures lists[v] == [] && (new_ != NULL ==> lists[new_] == old(lists[new_]) + old(lists[v]))
      ensures new_ != NULL && old(Remembered(State())) ==> Remembered(State())
    {
      ghost var g := State();
      KeysOf(g);
      var list := lists[v];
      NoneMoved(g, new_);
      assert list[..0] == [];
      hide Linked, Below, Placed, Remembered, Room, Redirected, Redirects, IsLive, Appended;
      for k := 0 to |list|
        invariant list == g.lists[v] && v in lists
        invariant operands == Redirected(g, list[..k], new_)
        invariant lists == Appended(g.lists, new_, list[..k])
      {
        var u := list[k];
        MoveOne(g, operands, list[..k], u, new_);
        assert list[..k + 1] == list[..k] + [u];
        SameLiveness(g, operands, list[..k], u, new_);
        if IsLive(State(), u) {
          operands := operands[u.owner := operands[u.owner][u.index := new_]];
        }
        AppendOne(g.lists, new_, list[..k], u);
        if new_ != NULL {
          lists := lists[new_ := lists[new_] + [u]];
        }
      }
      lists := lists[v := []];
      assert list[..|list|] == list;
      RedirectedIs(g, list, new_);
      AppendedLast(g.lists, new_, list);
      ReplacedIsLinked(g, v, new_);
      ReplacedKeepsRest(g, v, new_, next, blocks);
      if new_ != NULL && Remembered(g) {
        ReplacedIsRemembered(g, v, new_);
      }
    }

    method AddBlock() returns (b: nat)
      requires Valid()
      modifies this`blocks
      ensures Valid() && b == |old(blocks)| && blocks == old(blocks) + [[]]
    {
      b := |blocks|;
      blocks := blocks + [[]];
    }

    /** An instruction that is in no block yet becomes the last of one. */
    method PushBack(b: nat, i: Id)
      requires Valid() && b < |blocks| && i in operands && NowhereIn(blocks, i)
      modifies this`blocks
      ensures Valid() && blocks == old(blocks)[b := old(blocks[b]) + [i]]
    {
      blocks := blocks[b := blocks[b] + [i]];
      InsertedIsPlaced(State(), old(blocks), b, |old(blocks[b])|, i);
    }

    /** Or it follows another one, if that is in the block; if not, it becomes the last. */
    method Insert(b: nat, after: Option<Id>, i: Id)
      requires Valid() && b < |blocks| && i in operands && NowhereIn(blocks, i)
      modifies this`blocks
      ensures Valid()
      ensures exists k :: 0 <= k <= |old(blocks[b])| && 
                blocks == old(blocks)[b := InsertedAt(old(blocks[b]), k, i)] &&
                if after.Some? && after.value in old(blocks[b]) then k > 0 && old(blocks[b])[k - 1] == after.value
                else k == |old(blocks[b])|
    {
      if after.None? {
        PushBack(b, i);
        assert blocks[b] == InsertedAt(old(blocks[b]), |old(blocks[b])|, i);
        return;
      }
      var list := blocks[b];
      var k := 0;
      while k < |list| && list[k] != after.value
        invariant k <= |list| && after.value !in list[..k]
      {
        k := k + 1;
      }
      var at := if k < |list| then k + 1 else k;
      blocks := blocks[b := list[..at] + [i] + list[at..]];
      assert blocks[b] == InsertedAt(list, at, i);
      InsertedIsPlaced(State(), old(blocks), b, at, i);
    }

    /** Takes an instruction out of a block. It lives on until it is destroyed. */
    method Erase(b: nat, i: Id) returns (removed: bool)
      requires Valid() && b < |blocks|
      modifies this`blocks
      ensures Valid() && (removed <==> i in old(blocks[b]))
      ensures blocks == old(blocks)[b := Without(old(blocks[b]), i)]
      ensures removed ==> NowhereIn(blocks, i)
    {
      var list := blocks[b];
      var k := 0;
      while k < |list| && list[k] != i
        invariant k <= |list| && i !in list[..k]
      {
        k := k + 1;
      }
      WithoutAt(list, i, k);
      removed := k < |list|;
      if removed {
        blocks := blocks[b := list[..k] + list[k + 1..]];
      }
      RemovedIsPlaced(State(), old(blocks), b, i);
    }

    /** The end of an instruction that is in no block. What still pointed to it points nowhere. */
    method Destroy(i: Id)
      requires Valid() && i in operands && NowhereIn(blocks, i)
      modifies this`values, this`operands, this`lists
      ensures Valid()
      ensures State() == Destroyed(old(State()), i)
      ensures old(lists[i]) == [] && old(Remembered(State())) ==> Remembered(State())
    {
      hide Linked, Below, Remembered;
      ghost var g := State();
      values, operands, lists := values - {i}, operands - {i}, lists - {i};
      DestroyedIsLinked(g, i);
      DestroyedKeepsRest(g, i, next, blocks);
    }
  }
}
