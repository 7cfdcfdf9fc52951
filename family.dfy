/**
 * Entities shared by every part of the family-tree editor: a person node
 * (identity, canvas position and an open set of named attributes) and a
 * directed link between two node ids.
 */
module Family {

  datatype Option<T> = None | Some(value: T)

  /** A point in canvas (model) or screen coordinates. */
  datatype Point = Point(x: real, y: real)

  /**
   * Every attribute key of a node other than its id and position.  The
   * node type declares name, age, birthYear, location and biography; the
   * inline editor also writes birthDate, which a JavaScript object simply
   * accepts as one more key.
   */
  datatype Key = Name | Age | BirthYear | BirthDate | Location | Biography

  /** An attribute value: the node type allows strings and numbers. */
  datatype Value = Str(s: string) | Num(n: int)

  /**
   * A person.  `fields` holds the attributes that are present; a key that
   * is not in the map is `undefined` in the original object.
   */
  datatype Person = Person(id: int, x: real, y: real, fields: map<Key, Value>)

  /** A directed relation between two node ids. */
  datatype Link = Link(from: int, to: int)

  /** JavaScript truthiness of an optional attribute: absent, "" and 0 are falsy. */
  predicate Truthy(fields: map<Key, Value>, k: Key)
    ensures Truthy(fields, k) <==> k in fields && fields[k] != Str("") && fields[k] != Num(0)
  {
    k in fields &&
    match fields[k]
    case Str(s) => s != []
    case Num(n) => n != 0
  }

  /** True when the node's name is exactly the given string. */
  predicate NamedAs(p: Person, name: string)
  {
    Name in p.fields && p.fields[Name] == Str(name)
  }

  /** Reads a string of decimal digits back as the number it spells. */
  function DigitsValue(s: string): int
  {
    if s == [] then 0 else DigitsValue(s[..|s| - 1]) * 10 + (s[|s| - 1] as int - '0' as int)
  }

  /** Reads an optionally negative decimal numeral back as the number it spells. */
  function DecimalValue(s: string): int
  {
    if |s| > 0 && s[0] == '-' then -DigitsValue(s[1..]) else DigitsValue(s)
  }

  /** Every character is a decimal digit. */
  predicate AllDigits(s: string)
  {
    forall i :: 0 <= i < |s| ==> '0' <= s[i] <= '9'
  }

  /** A numeral without sign as a template literal prints it: digits, no leading zero except "0" itself. */
  predicate CanonicalDigits(s: string)
  {
    s != [] && AllDigits(s) && (s[0] == '0' ==> s == "0")
  }

  /** A canonical numeral, optionally negative; there is no "-0". */
  predicate CanonicalDecimal(s: string)
  {
    if |s| > 0 && s[0] == '-' then CanonicalDigits(s[1..]) && s[1] != '0' else CanonicalDigits(s)
  }

  /** Decimal digits of a natural number, as a template literal prints it up to 2^53. */
  function Digits(n: nat): (r: string)
    ensures CanonicalDigits(r)
    ensures DigitsValue(r) == n
    decreases n
  {
    var d := ['0' + (n % 10) as char];
    assert DigitsValue(d) == n % 10 by {
      assert d[..0] == [];
    }
    if n < 10 then d
    else
      var front := Digits(n / 10);
      assert (front + d)[..|front + d| - 1] == front;
      assert (front + d)[0] == front[0];
      front + d
  }

  /**
   * `${n}` for an integer: the canonical numeral that reads back as `n`, signed exactly
   * when negative. This is JavaScript's form up to magnitude 2^53. Above that, JavaScript prints
   * the shortest digits that read back as the same double, and exponent form from 10^21 on.
   */
  function Decimal(n: int): (r: string)
    ensures CanonicalDecimal(r)
    ensures (r[0] == '-') == (n < 0)
    ensures DecimalValue(r) == n
  {
    if n < 0 then
      var digits := Digits(-n);
      assert ("-" + digits)[1..] == digits;
      "-" + digits
    else Digits(n)
  }

  /** Digits that do not start with '0' are worth at least one; any digits are worth at least zero. */
  lemma {:induction false} DigitsValueBounds(s: string)
    requires AllDigits(s)
    ensures DigitsValue(s) >= 0
    ensures s != [] && s[0] != '0' ==> DigitsValue(s) >= 1
    decreases |s|
  {
    if s != [] {
      var front := s[..|s| - 1];
      DigitsValueBounds(front);
      if |front| > 0 {
        assert front[0] == s[0];
      }
    }
  }

  /** Reading a canonical unsigned numeral and printing the value gives the numeral back. */
  lemma {:induction false} DigitsRoundTrip(s: string)
    requires CanonicalDigits(s)
    ensures DigitsValue(s) >= 0 && Digits(DigitsValue(s)) == s
    decreases |s|
  {
    var front, last := s[..|s| - 1], s[|s| - 1];
    var digit := last as int - '0' as int;
    assert 0 <= digit < 10;
    DigitsValueBounds(front);
    var v := DigitsValue(front);
    assert DigitsValue(s) == v * 10 + digit;
    if |s| > 1 {
      assert front[0] == s[0] && s[0] != '0';
      DigitsRoundTrip(front);
      var n: nat := v * 10 + digit;
      assert n / 10 == v && n % 10 == digit && n >= 10;
      assert Digits(n) == Digits(v) + ['0' + digit as char];
      assert s == front + [last];
    } else {
      assert front == [];
    }
  }

  /** Reading a canonical numeral and printing the value gives the numeral back. */
  lemma DecimalRoundTrip(s: string)
    requires CanonicalDecimal(s)
    ensures Decimal(DecimalValue(s)) == s
  {
    if |s| > 0 && s[0] == '-' {
      var t := s[1..];
      assert t[0] == s[1];
      DigitsValueBounds(t);
      DigitsRoundTrip(t);
      assert s == "-" + t;
    } else {
      DigitsRoundTrip(s);
    }
  }

  /**
   * `${fields[k]}`: a string prints as itself, a number as a numeral that
   * reads back as it, an absent attribute as `undefined`.
   */
  function Render(fields: map<Key, Value>, k: Key): (r: string)
    ensures k !in fields ==> r == "undefined"
    ensures k in fields && fields[k].Str? ==> r == fields[k].s
    ensures k in fields && fields[k].Num? ==> CanonicalDecimal(r) && DecimalValue(r) == fields[k].n
  {
    if k !in fields then "undefined"
    else match fields[k]
      case Str(s) => s
      case Num(n) => Decimal(n)
  }

  /** `nodes.find((n) => n.node.id === id)`: the first node carrying `id`. */
  function Find(nodes: seq<Person>, id: int): (r: Option<Person>)
    ensures r.None? <==> forall i :: 0 <= i < |nodes| ==> nodes[i].id != id
    ensures r.Some? ==> exists i :: 0 <= i < |nodes| && nodes[i] == r.value &&
                           forall j :: 0 <= j < i ==> nodes[j].id != id
    ensures r.Some? ==> r.value in nodes && r.value.id == id
  {
    if nodes == [] then None
    else if nodes[0].id == id then Some(nodes[0])
    else
      var r := Find(nodes[1..], id);
      if r.Some? then
        ghost var i :| 0 <= i < |nodes[1..]| && nodes[1..][i] == r.value &&
                       forall j :: 0 <= j < i ==> nodes[1..][j].id != id;
        assert nodes[i + 1] == r.value;
        r
      else r
  }

  /** `{...node, ...patch}`: the patch's keys win, every other key is kept. */
  function Merge(p: Person, patch: map<Key, Value>): (r: Person)
    ensures r.id == p.id && r.x == p.x && r.y == p.y
    ensures forall k :: k in patch ==> k in r.fields && r.fields[k] == patch[k]
    ensures forall k :: k !in patch ==> (k in r.fields <==> k in p.fields)
    ensures forall k :: k !in patch && k in p.fields ==> r.fields[k] == p.fields[k]
  {
    p.(fields := p.fields + patch)
  }

  /**
   * `nodes.map((n) => n.node.id === id ? {...n, node: {...n.node, ...patch}} : n)`:
   * merge the patch into every node that carries `id`, leave the others.
   */
  function ApplyEdit(nodes: seq<Person>, id: int, patch: map<Key, Value>): (r: seq<Person>)
    ensures |r| == |nodes|
    ensures forall i :: 0 <= i < |r| ==> r[i].id == nodes[i].id && r[i].x == nodes[i].x && r[i].y == nodes[i].y
    ensures forall i :: 0 <= i < |r| && nodes[i].id != id ==> r[i] == nodes[i]
    ensures forall i :: 0 <= i < |r| && nodes[i].id == id ==> r[i] == Merge(nodes[i], patch)
  {
    seq(|nodes|, i requires 0 <= i < |nodes| => if nodes[i].id == id then Merge(nodes[i], patch) else nodes[i])
  }

  /** Every node id and every link endpoint is below `bound`. */
  ghost predicate IdsBelow(nodes: seq<Person>, edges: seq<Link>, bound: int)
  {
    (forall i :: 0 <= i < |nodes| ==> nodes[i].id < bound) &&
    (forall i :: 0 <= i < |edges| ==> edges[i].from < bound && edges[i].to < bound)
  }
}
