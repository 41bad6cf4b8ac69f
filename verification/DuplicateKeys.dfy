/** Streaming detection of duplicate object names (src/recipes/config.cpp:446-509). */
module DuplicateKeys {

  datatype Json = Leaf | Array(items: seq<Json>) | Object(members: seq<Member>)

  datatype Member = Member(name: string, value: Json)

  // ----- the callback ------------------------------------------------------------------------------

  /** The events that the callback looks at; it ignores the others and keeps their values. */
  datatype Event = ObjectStart | Key(name: string) | Other

  datatype Tracker = Tracker(keys: map<int, set<string>>, duplicate: bool)

  /** `std::map::operator[]` makes an empty set on first use. */
  function KeysAt(t: Tracker, depth: int): set<string> {
    if depth in t.keys then t.keys[depth] else {}
  }

  function Tracked(t: Tracker, depth: int, event: Event): Tracker {
    match event
    case ObjectStart => t.(keys := t.keys[depth + 1 := {}])
    case Key(name) => Tracker(t.keys[depth := KeysAt(t, depth) + {name}], t.duplicate || name in KeysAt(t, depth))
    case Other => t
  }

  predicate Keeps(t: Tracker, depth: int, event: Event) {
    event.Key? ==> event.name !in KeysAt(t, depth)
  }

  class DuplicateKeyCallback {
    var keys: map<int, set<string>>
    var duplicate: bool

    function View(): Tracker
      reads this
    {
      Tracker(keys, duplicate)
    }

    constructor ()
      ensures View() == Tracker(map[], false)
    {
      keys, duplicate := map[], false;
    }

    method Call(depth: int, event: Event) returns (keep: bool)
      modifies this
      ensures View() == Tracked(old(View()), depth, event)
      ensures keep == Keeps(old(View()), depth, event)
    {
      match event {
        case ObjectStart =>
          keys := keys[depth + 1 := {}];
        case Key(name) =>
          var known := if depth in keys then keys[depth] else {};
          keys := keys[depth := known + {name}];
          if name in known {
            duplicate := true;
            return false;
          }
        case Other =>
      }
      return true;
    }
  }

  // ----- the parser --------------------------------------------------------------------------------

  // The parser numbers the events by the depth of the value they belong to; arrays add depth as
  // objects do, and the names of an object come one below its start.  Whether it reports what is
  // inside a value whose name was refused (`reports`) is left open: the flag does not depend on it.

  function Fed(t: Tracker, v: Json, depth: int, reports: bool): Tracker
    decreases v, 0
  {
    match v
    case Leaf => Tracked(t, depth, Other)
    case Array(items) => FedItems(Tracked(t, depth, Other), items, depth + 1, reports)
    case Object(members) => FedMembers(Tracked(t, depth, ObjectStart), members, depth + 1, reports)
  }

  function FedItems(t: Tracker, items: seq<Json>, depth: int, reports: bool): Tracker
    decreases items, 1
  {
    if items == [] then t
    else FedItems(Fed(t, items[0], depth, reports), items[1..], depth, reports)
  }

  function FedMembers(t: Tracker, members: seq<Member>, depth: int, reports: bool): Tracker
    decreases members, 1
  {
    if members == [] then t
    else
      var key := Key(members[0].name);
      var after := Tracked(t, depth, key);
      FedMembers(if Keeps(t, depth, key) || reports then Fed(after, members[0].value, depth, reports) else after,
                 members[1..], depth, reports)
  }

  // ----- what it decides ---------------------------------------------------------------------------

  /** Some object of the tree repeats a name. */
  predicate Repeats(v: Json)
    decreases v
  {
    match v
    case Leaf => false
    case Array(items) => exists i :: 0 <= i < |items| && Repeats(items[i])
    case Object(members) =>
      || (exists i, j :: 0 <= i < j < |members| && members[i].name == members[j].name)
      || (exists i :: 0 <= i < |members| && Repeats(members[i].value))
  }

  /** Feeding a value changes no set of its own depth or above, and sets the flag exactly if
      the value repeats a name. */
  lemma {:induction false} FedValue(t: Tracker, v: Json, depth: int, reports: bool)
    ensures var r := Fed(t, v, depth, reports);
            && (forall d :: d <= depth ==> KeysAt(r, d) == KeysAt(t, d))
            && (r.duplicate <==> t.duplicate || Repeats(v))
    decreases v, 0
  {
    match v
    case Leaf =>
    case Array(items) =>
      ItemsFed(t, items, depth + 1, reports);
    case Object(members) =>
      MembersFed(Tracked(t, depth, ObjectStart), members, {}, depth + 1, reports);
      assert NamesRepeat(members, {}) <==> exists i, j :: 0 <= i < j < |members| && members[i].name == members[j].name;
  }

  lemma {:induction false} ItemsFed(t: Tracker, items: seq<Json>, depth: int, reports: bool)
    ensures var r := FedItems(t, items, depth, reports);
            && (forall d :: d < depth ==> KeysAt(r, d) == KeysAt(t, d))
            && (r.duplicate <==> t.duplicate || exists i :: 0 <= i < |items| && Repeats(items[i]))
    decreases items, 1
  {
    if items != [] {
      FedValue(t, items[0], depth, reports);
      ItemsFed(Fed(t, items[0], depth, reports), items[1..], depth, reports);
      forall i | 0 <= i < |items[1..]|
        ensures items[1..][i] == items[i + 1]
      {
      }
    }
  }

  /** A name occurs twice in the list, or once and in `known`. */
  predicate NamesRepeat(members: seq<Member>, known: set<string>) {
    || (exists i :: 0 <= i < |members| && members[i].name in known)
    || (exists i, j :: 0 <= i < j < |members| && members[i].name == members[j].name)
  }

  lemma {:induction false} MembersFed(t: Tracker, members: seq<Member>, known: set<string>, depth: int, reports: bool)
    requires KeysAt(t, depth) == known
    ensures var r := FedMembers(t, members, depth, reports);
            && (forall d :: d < depth ==> KeysAt(r, d) == KeysAt(t, d))
            && (r.duplicate <==> t.duplicate || NamesRepeat(members, known)
                                 || exists i :: 0 <= i < |members| && Repeats(members[i].value))
    decreases members, 1
  {
    if members != [] {
      var m, rest := members[0], members[1..];
      var after := Tracked(t, depth, Key(m.name));
      FedValue(after, m.value, depth, reports);
      var next := if m.name !in known || reports then Fed(after, m.value, depth, reports) else after;
      MembersFed(next, rest, known + {m.name}, depth, reports);
      NamesStep(members, known);
      ValuesStep(members);
    }
  }

  lemma NamesStep(members: seq<Member>, known: set<string>)
    requires members != []
    ensures NamesRepeat(members, known) <==>
              members[0].name in known || NamesRepeat(members[1..], known + {members[0].name})
  {
    var rest := members[1..];
    if NamesRepeat(rest, known + {members[0].name}) && members[0].name !in known {
      if i :| 0 <= i < |rest| && rest[i].name in known + {members[0].name} {
        assert members[i + 1] == rest[i];
      } else {
        var i, j :| 0 <= i < j < |rest| && rest[i].name == rest[j].name;
        assert members[i + 1] == rest[i] && members[j + 1] == rest[j];
      }
    }
    if NamesRepeat(members, known) && members[0].name !in known {
      if i :| 0 <= i < |members| && members[i].name in known {
        assert rest[i - 1] == members[i];
      } else {
        var i, j :| 0 <= i < j < |members| && members[i].name == members[j].name;
        assert rest[j - 1] == members[j] && (i > 0 ==> rest[i - 1] == members[i]);
      }
    }
  }

  lemma ValuesStep(members: seq<Member>)
    requires members != []
    ensures (exists i :: 0 <= i < |members| && Repeats(members[i].value)) <==>
              Repeats(members[0].value) || exists i :: 0 <= i < |members[1..]| && Repeats(members[1..][i].value)
  {
    if i :| 0 <= i < |members| && Repeats(members[i].value) {
      assert i > 0 ==> members[1..][i - 1] == members[i];
    }
    if i :| 0 <= i < |members[1..]| && Repeats(members[1..][i].value) {
      assert members[i + 1] == members[1..][i];
    }
  }

  /** The flag is set exactly if some object anywhere in the document repeats a name. */
  lemma DetectsExactly(v: Json, reports: bool)
    ensures Fed(Tracker(map[], false), v, 0, reports).duplicate <==> Repeats(v)
  {
    FedValue(Tracker(map[], false), v, 0, reports);
  }

  /** The parser at work on the callback object. */
  method Feed(callback: DuplicateKeyCallback, v: Json, depth: int, reports: bool)
    modifies callback
    ensures callback.View() == Fed(old(callback.View()), v, depth, reports)
    decreases v, 0
  {
    match v {
      case Leaf =>
        var _ := callback.Call(depth, Other);
      case Array(items) =>
        var _ := callback.Call(depth, Other);
        FeedItems(callback, items, depth + 1, reports);
      case Object(members) =>
        var _ := callback.Call(depth, ObjectStart);
        FeedMembers(callback, members, depth + 1, reports);
    }
  }

  method FeedItems(callback: DuplicateKeyCallback, items: seq<Json>, depth: int, reports: bool)
    modifies callback
    ensures callback.View() == FedItems(old(callback.View()), items, depth, reports)
    decreases items, 1
  {
    if items != [] {
      Feed(callback, items[0], depth, reports);
      FeedItems(callback, items[1..], depth, reports);
    }
  }

  method FeedMembers(callback: DuplicateKeyCallback, members: seq<Member>, depth: int, reports: bool)
    modifies callback
    ensures callback.View() == FedMembers(old(callback.View()), members, depth, reports)
    decreases members, 1
  {
    if members != [] {
      var keep := callback.Call(depth, Key(members[0].name));
      if keep || reports {
        Feed(callback, members[0].value, depth, reports);
      }
      FeedMembers(callback, members[1..], depth, reports);
    }
  }

  /** What reading and parsing the file comes to. */
  datatype Source = Missing | Unreadable | Malformed | Document(tree: Json)

  datatype LoadError = NoError | IoError | FileMissing | ParseError | DuplicateKey

  /** `load_json_document`: a document is accepted exactly if no object in it repeats a name. */
  method LoadJsonDocument(source: Source, reports: bool) returns (error: LoadError)
    ensures error == match source
                     case Missing => FileMissing
                     case Unreadable => IoError
                     case Malformed => ParseError
                     case Document(tree) => if Repeats(tree) then DuplicateKey else NoError
  {
    match source {
      case Missing =>
        return FileMissing;
      case Unreadable =>
        return IoError;
      case Malformed =>
        return ParseError;
      case Document(tree) =>
        var callback := new DuplicateKeyCallback();
        Feed(callback, tree, 0, reports);
        DetectsExactly(tree, reports);
        return if callback.duplicate then DuplicateKey else NoError;
    }
  }
}
