/** The typed attribute cache: one variant per attribute path, written and read at a C++ type. */
module AttributeStateCache {
  import opened Text

  /** The alternatives of the variant. */
  datatype Tag = Bool | Float | Int8 | UInt8 | Int16 | UInt16 | UInt32 | UInt64 | Int | Str | Chars | Bytes

  /** The value held, whatever the alternative. */
  type Content = seq<int>

  /**
   * Enums and bit masks are held as their integers. A nullable's reserved value stands for null on
   * the wire; `onNull` is the content that a set of null itself stores, if the SDK lets one through.
   */
  datatype Type =
    | Plain(tag: Tag) | Enum(tag: Tag) | BitMask(tag: Tag)
    | Nullable(inner: Type, reserved: Option<Content>, onNull: Option<Content>)

  datatype Datum = Null | Value(content: Content)

  datatype Path = Path(endpoint: nat, cluster: nat, attribute: nat)

  datatype Cell = Cell(tag: Tag, content: Content)

  datatype GetResult = Got(datum: Datum) | Missing | BadVariantAccess

  predicate HasType(d: Datum, t: Type) {
    d.Null? ==> t.Nullable?
  }

  function TagOf(t: Type): Tag {
    match t case Nullable(inner, _, _) => TagOf(inner) case _ => t.tag
  }

  /** What a set stores, if anything. */
  function Effect(t: Type, d: Datum): Option<Cell> {
    match t
    case Nullable(inner, reserved, onNull) =>
      (match d
       case Null => if onNull.Some? then Effect(inner, Value(onNull.value)) else None
       case Value(content) => if reserved == Some(content) then None else Effect(inner, d))
    case _ => if d.Null? then None else Some(Cell(t.tag, d.content))
  }

  function Read(cells: map<Path, Cell>, path: Path, t: Type): GetResult {
    if path in cells then (if cells[path].tag == TagOf(t) then Got(Value(cells[path].content)) else BadVariantAccess)
    else if t.Nullable? then Got(Null)
    else Missing
  }

  class AttributeCache {
    var cells: map<Path, Cell>

    constructor ()
      ensures cells == map[]
    {
      cells := map[];
    }

    method Set(path: Path, t: Type, d: Datum)
      requires HasType(d, t)
      modifies this
      ensures cells == (if Effect(t, d).Some? then old(cells)[path := Effect(t, d).value] else old(cells))
      decreases t
    {
      match t
      case Nullable(inner, reserved, onNull) =>
        if d.Null? {
          if onNull.Some? {
            Set(path, inner, Value(onNull.value));
          }
        } else if reserved != Some(d.content) {
          Set(path, inner, d);
        }
      case _ =>
        cells := cells[path := Cell(t.tag, d.content)];
    }

    method Get(path: Path, t: Type) returns (r: GetResult)
      ensures r == Read(cells, path, t)
      decreases t
    {
      if path in cells {
        if t.Nullable? {
          r := Get(path, t.inner);
        } else if cells[path].tag == t.tag {
          return Got(Value(cells[path].content));
        } else {
          return BadVariantAccess;
        }
      } else if t.Nullable? {
        return Got(Null);
      } else {
        return Missing;
      }
    }
  }

  // ---- History ---------------------------------------------------------------------

  datatype Write = Write(path: Path, t: Type, datum: Datum)

  function After(cells: map<Path, Cell>, w: Write): map<Path, Cell> {
    if Effect(w.t, w.datum).Some? then cells[w.path := Effect(w.t, w.datum).value] else cells
  }

  function Stored(w: Write): Content
    requires Effect(w.t, w.datum).Some?
  {
    Effect(w.t, w.datum).value.content
  }

  function AfterAll(cells: map<Path, Cell>, ws: seq<Write>): map<Path, Cell> {
    if ws == [] then cells else After(AfterAll(cells, ws[..|ws| - 1]), ws[|ws| - 1])
  }

  /** Write i is the last one at this path that stored anything. */
  ghost predicate LastAt(ws: seq<Write>, path: Path, i: nat) {
    && i < |ws| && ws[i].path == path && Effect(ws[i].t, ws[i].datum).Some?
    && forall k :: i < k < |ws| ==> ws[k].path != path || Effect(ws[k].t, ws[k].datum).None?
  }

  /**
   * Reading at a path gives what the last write there that stored anything stored, its own content
   * if it was no null, if the types share an alternative, and throws if they do not; other paths
   * and writes that store nothing do not matter.
   */
  lemma {:induction false} ReadsLastWrite(ws: seq<Write>, path: Path, t: Type)
    ensures forall i: nat :: LastAt(ws, path, i) ==>
      Read(AfterAll(map[], ws), path, t) ==
      (if TagOf(ws[i].t) == TagOf(t) then Got(Value(Stored(ws[i]))) else BadVariantAccess)
    ensures forall i: nat :: LastAt(ws, path, i) && ws[i].datum.Value? ==> Stored(ws[i]) == ws[i].datum.content
    ensures (forall i: nat :: !LastAt(ws, path, i)) ==>
      Read(AfterAll(map[], ws), path, t) == (if t.Nullable? then Got(Null) else Missing)
  {
    if ws == [] {
    } else {
      var n := |ws| - 1;
      var front, last := ws[..n], ws[n];
      ReadsLastWrite(front, path, t);
      EffectKeepsContent(last.t, last.datum);
      if last.path == path && Effect(last.t, last.datum).Some? {
        assert LastAt(ws, path, n);
        assert forall i: nat :: LastAt(ws, path, i) ==> i == n;
      } else {
        forall i: nat
          ensures LastAt(ws, path, i) <==> LastAt(front, path, i)
        {
          assert i < n ==> ws[i] == front[i];
          assert LastAt(ws, path, i) ==> forall k :: i < k < n ==> front[k] == ws[k];
        }
        assert Read(AfterAll(map[], ws), path, t) == Read(AfterAll(map[], front), path, t);
        assert forall i: nat :: i < n ==> front[i] == ws[i];
      }
    }
  }

  lemma {:induction false} EffectKeepsContent(t: Type, d: Datum)
    ensures Effect(t, d).Some? ==> Effect(t, d).value.tag == TagOf(t)
    ensures Effect(t, d).Some? && d.Value? ==> Effect(t, d).value.content == d.content
  {
    if t.Nullable? {
      EffectKeepsContent(t.inner, d);
      if d.Null? && t.onNull.Some? {
        EffectKeepsContent(t.inner, Value(t.onNull.value));
      }
    }
  }

  /**
   * One set, by the kind of its type. A plain value, an enum and a bit mask are stored as they are
   * at their alternative. A nullable stores what its inner type would, unless the value is the
   * reserved one; for null it stores what the SDK lets through, if anything.
   */
  lemma SetMeans(cells: map<Path, Cell>, path: Path, t: Type, d: Datum)
    requires HasType(d, t)
    ensures var after := After(cells, Write(path, t, d));
      match t
      case Nullable(inner, reserved, onNull) =>
        after == (
          if d.Null? then (if onNull.Some? then After(cells, Write(path, inner, Value(onNull.value))) else cells)
          else if reserved == Some(d.content) then cells
          else After(cells, Write(path, inner, d)))
      case _ => after == cells[path := Cell(t.tag, d.content)]
  {}

  /**
   * A value that was set is read back exactly when it was stored or was there already; a null
   * exactly when it stored nothing and nothing was there.
   */
  lemma SetThenGet(cells: map<Path, Cell>, path: Path, t: Type, d: Datum)
    requires HasType(d, t)
    ensures Read(After(cells, Write(path, t, d)), path, t) == Got(d) <==>
      match d
      case Null => Effect(t, d).None? && path !in cells
      case Value(content) => Effect(t, d).Some? || (path in cells && cells[path] == Cell(TagOf(t), content))
  {
    EffectKeepsContent(t, d);
  }
}
