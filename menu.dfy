/** The two-line menu engine of menu.h: a tagged union of action, sub-menu reference and integer
    (variant_t), a labelled entry (menu_t), and a node of two entries with a one-bit cursor
    (lcd_menu_t) whose exec() descends into a sub-menu by copying it over itself.
    Function pointers are action ids; sub-menu pointers are indices into a table of nodes that
    the caller owns. */
module Menus {

  /** Visible characters of a label (`char txt[17]`). */
  const LABEL_WIDTH := 16

  type Bit = b: int | 0 <= b < 2

  /** entry_t: FUNC = 0, MENU = 1, INT = 2. */
  datatype EntryType = Func | Menu | Int

  /** `void (*)()`: null, or the action the pointer designates. */
  datatype FuncPtr = NullFunc | Action(id: nat)

  /** `lcd_menu_t *`: null, or the index of the node it points to. */
  datatype MenuPtr = NullMenu | NodeAt(index: nat)

  /** The union member last written. */
  datatype Payload = FuncVal(func: FuncPtr) | MenuVal(menu: MenuPtr) | IntVal(ival: int)

  /** variant_t: the union and the tag, stored side by side. */
  datatype Variant = Variant(value: Payload, tag: EntryType)

  /** The tag names the union member that holds the payload. */
  predicate Tagged(v: Variant)
  {
    match v.tag
    case Func => v.value.FuncVal?
    case Menu => v.value.MenuVal?
    case Int => v.value.IntVal?
  }

  /** `operator=(void (*)())`: stores the function pointer and sets the tag to FUNC. */
  function AssignFunc(func: FuncPtr): (v: Variant)
    ensures Tagged(v) && v.tag == Func && v.value.func == func
  {
    Variant(FuncVal(func), Func)
  }

  /** `operator=(lcd_menu_t *)`: stores the node pointer and sets the tag to MENU. */
  function AssignMenu(menu: MenuPtr): (v: Variant)
    ensures Tagged(v) && v.tag == Menu && v.value.menu == menu
  {
    Variant(MenuVal(menu), Menu)
  }

  /** `operator=(int)`: stores the integer and sets the tag to INT. */
  function AssignInt(ival: int): (v: Variant)
    ensures Tagged(v) && v.tag == Int && v.value.ival == ival
  {
    Variant(IntVal(ival), Int)
  }

  /** menu_t: a label, a value, and the bounds of an integer setting. */
  datatype Entry = Entry(txt: seq<char>, value: Variant, min: int, max: int)

  /** The default constructor of menu_t: empty label, the integer 0, bounds 0 and 0. */
  function DefaultEntry(): (e: Entry)
    ensures e.txt == [] && Tagged(e.value) && e.value.tag == Int && e.value.value.ival == 0
    ensures e.min == 0 && e.max == 0
  {
    Entry([], AssignInt(0), 0, 0)
  }

  /** An entry as the four-argument constructors of lcd_menu_t leave it: label and value given,
      bounds from the default constructor of menu_t. */
  function LabelledEntry(txt: seq<char>, value: Variant): (e: Entry)
    ensures e.txt == txt && e.value == value && e.min == 0 && e.max == 0
  {
    Entry(txt, value, 0, 0)
  }

  /** lcd_menu_t as a value: both entries and the cursor. */
  datatype Node = Node(first: Entry, second: Entry, cur: Bit)

  function Selected(n: Node): Entry
  {
    if n.cur == 0 then n.first else n.second
  }

  predicate EntryOk(e: Entry)
  {
    Tagged(e.value) && |e.txt| <= LABEL_WIDTH
  }

  predicate NodeOk(n: Node)
  {
    EntryOk(n.first) && EntryOk(n.second)
  }

  /** A sub-menu reference of this entry, if any, points into a table of the given size. */
  predicate RefWithin(e: Entry, size: nat)
  {
    e.value.value.MenuVal? && e.value.value.menu.NodeAt? ==> e.value.value.menu.index < size
  }

  predicate RefsWithin(n: Node, size: nat)
  {
    RefWithin(n.first, size) && RefWithin(n.second, size)
  }

  /** Every node of the table is well formed and refers only to nodes of the table. */
  predicate TableOk(table: seq<Node>)
  {
    forall k :: 0 <= k < |table| ==> NodeOk(table[k]) && RefsWithin(table[k], |table|)
  }

  /** next(): flips the cursor; the entries stay. */
  function Toggle(n: Node): (r: Node)
    ensures r.cur != n.cur
    ensures r.(cur := n.cur) == n
  {
    n.(cur := 1 - n.cur)
  }

  /** Two calls of next() restore the cursor. */
  lemma ToggleTwice(n: Node)
    ensures Toggle(Toggle(n)) == n
  {
  }

  /** What exec() invoked. */
  datatype Fired = Nothing | Invoked(action: nat)

  datatype Outcome = Outcome(node: Node, fired: Fired)

  /** exec(): dispatches on the tag of the selected entry. A non-null function is invoked and
      the node stays; a non-null sub-menu reference replaces the whole node, cursor included,
      by the node it refers to; a null pointer or an integer does nothing. */
  function Dispatch(n: Node, table: seq<Node>): (o: Outcome)
    requires NodeOk(n) && RefsWithin(n, |table|)
    ensures Selected(n).value.tag == Func ==>
      o.node == n &&
      o.fired == (match Selected(n).value.value.func
                  case NullFunc => Nothing
                  case Action(id) => Invoked(id))
    ensures Selected(n).value.tag == Menu && Selected(n).value.value.menu.NodeAt? ==>
      o == Outcome(table[Selected(n).value.value.menu.index], Nothing)
    ensures Selected(n).value.tag == Menu && Selected(n).value.value.menu == NullMenu ==>
      o == Outcome(n, Nothing)
    ensures Selected(n).value.tag == Int ==> o == Outcome(n, Nothing)
    ensures TableOk(table) ==> NodeOk(o.node) && RefsWithin(o.node, |table|)
  {
    var v := Selected(n).value;
    match v.tag
    case Func =>
      (match v.value.func
       case NullFunc => Outcome(n, Nothing)
       case Action(id) => Outcome(n, Invoked(id)))
    case Menu =>
      (match v.value.menu
       case NullMenu => Outcome(n, Nothing)
       case NodeAt(i) => Outcome(table[i], Nothing))
    case Int => Outcome(n, Nothing)
  }

  /** Descent is destructive: what exec() yields from a sub-menu entry depends only on the node
      referred to, never on the node it left, so two different parents that select the same
      sub-menu end up in the same state. */
  lemma DescentForgetsParent(p: Node, q: Node, table: seq<Node>)
    requires NodeOk(p) && RefsWithin(p, |table|) && NodeOk(q) && RefsWithin(q, |table|)
    requires Selected(p).value == Selected(q).value
    requires Selected(p).value.tag == Menu && Selected(p).value.value.menu.NodeAt?
    ensures Dispatch(p, table) == Dispatch(q, table)
  {
  }

  /** A node whose entry 0 is an action and whose entry 1 refers to a child: next() then exec()
      lands in the child, and every later exec() behaves as the child's own would. */
  lemma SelectThenDescend(n: Node, table: seq<Node>, child: nat)
    requires TableOk(table) && NodeOk(n) && RefsWithin(n, |table|)
    requires n.cur == 0 && n.first.value.tag == Func && n.second.value == AssignMenu(NodeAt(child))
    ensures child < |table|
    ensures Dispatch(Toggle(n), table) == Outcome(table[child], Nothing)
    ensures Dispatch(Dispatch(Toggle(n), table).node, table) == Dispatch(table[child], table)
  {
  }

  /** lcd_menu_t: the node the display shows, updated in place. */
  class LcdMenu {
    const menu: array<Entry>
    var cur: Bit

    ghost predicate Valid()
      reads this
    {
      menu.Length == 2
    }

    function State(): Node
      reads this, menu
      requires Valid()
    {
      Node(menu[0], menu[1], cur)
    }

    /** The default constructor: both entries as menu_t() leaves them. The cursor is not
        initialised by the source, so it is left unconstrained here. */
    constructor ()
      ensures Valid() && fresh(menu)
      ensures State().first == DefaultEntry() && State().second == DefaultEntry()
      ensures NodeOk(State()) && RefsWithin(State(), 0)
    {
      menu := new Entry[2](_ => DefaultEntry());
    }

    /** The constructors taking two labels and two function pointers (char * and const char *
        alike). */
    constructor WithActions(msg1: seq<char>, func1: FuncPtr, msg2: seq<char>, func2: FuncPtr)
      requires |msg1| <= LABEL_WIDTH && |msg2| <= LABEL_WIDTH
      ensures Valid() && fresh(menu)
      ensures State().first == LabelledEntry(msg1, AssignFunc(func1))
      ensures State().second == LabelledEntry(msg2, AssignFunc(func2))
      ensures NodeOk(State()) && RefsWithin(State(), 0)
    {
      menu := new Entry[2](_ => DefaultEntry());
      new;
      menu[0] := menu[0].(txt := msg1);
      menu[0] := menu[0].(value := AssignFunc(func1));
      menu[1] := menu[1].(txt := msg2);
      menu[1] := menu[1].(value := AssignFunc(func2));
    }

    /** The constructors taking two labels and two node pointers (char * and const char *
        alike). */
    constructor WithSubMenus(msg1: seq<char>, menu1: MenuPtr, msg2: seq<char>, menu2: MenuPtr)
      requires |msg1| <= LABEL_WIDTH && |msg2| <= LABEL_WIDTH
      ensures Valid() && fresh(menu)
      ensures State().first == LabelledEntry(msg1, AssignMenu(menu1))
      ensures State().second == LabelledEntry(msg2, AssignMenu(menu2))
      ensures NodeOk(State())
    {
      menu := new Entry[2](_ => DefaultEntry());
      new;
      menu[0] := menu[0].(txt := msg1);
      menu[0] := menu[0].(value := AssignMenu(menu1));
      menu[1] := menu[1].(txt := msg2);
      menu[1] := menu[1].(value := AssignMenu(menu2));
    }

    /** next(): flips the cursor and returns its new value. */
    method Next() returns (r: Bit)
      requires Valid()
      modifies this
      ensures Valid() && State() == Toggle(old(State()))
      ensures r == cur
    {
      cur := 1 - cur;
      r := cur;
    }

    /** exec(): dispatches on the selected entry, copying a referenced node over this one;
        returns this node and the action it invoked, if any. */
    method Exec(table: seq<Node>) returns (self: LcdMenu, fired: Fired)
      requires Valid() && NodeOk(State()) && RefsWithin(State(), |table|)
      modifies this, menu
      ensures Valid() && self == this
      ensures Outcome(State(), fired) == Dispatch(old(State()), table)
    {
      self := this;
      fired := Nothing;
      var v := menu[cur].value;
      match v.tag {
        case Func =>
          if v.value.func != NullFunc {
            fired := Invoked(v.value.func.id);
          }
        case Menu =>
          if v.value.menu != NullMenu {
            var target := table[v.value.menu.index];
            menu[0] := target.first;
            menu[1] := target.second;
            cur := target.cur;
          }
        case Int =>
      }
    }
  }
}
