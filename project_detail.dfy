/** The project detail page: the route's `id` is read with `parseInt` and
    looked up among the projects; the page then offers up to three related
    projects of the same category. */
module ProjectDetail {
  import opened Seqs
  import opened Projects

  // ---------------------------------------------------------------------
  // `parseInt(id)` with no radix; `None` stands for NaN

  /** The characters `parseInt` skips before the number: JavaScript's
      WhiteSpace (tab, vertical tab, form feed, the byte order mark and the
      Unicode space separators) and LineTerminator characters. */
  predicate IsSpace(c: char) {
    var u := c as int;
    || 0x09 <= u <= 0x0D
    || u == 0x20 || u == 0xA0 || u == 0x1680
    || 0x2000 <= u <= 0x200A
    || u == 0x2028 || u == 0x2029 || u == 0x202F || u == 0x205F || u == 0x3000
    || u == 0xFEFF
  }

  /** The leading white space removed. */
  function TrimStart(s: string): (r: string)
    ensures |r| <= |s| && r == s[|s| - |r|..]
    ensures forall i :: 0 <= i < |s| - |r| ==> IsSpace(s[i])
    ensures r == [] || !IsSpace(r[0])
  {
    if s != [] && IsSpace(s[0]) then TrimStart(s[1..]) else s
  }

  /** The value of `c` as a digit in bases up to 36; 36 when it is none. */
  function DigitValue(c: char): (d: nat)
    ensures d <= 36
    ensures '0' <= c <= '9' ==> d == c as int - '0' as int
  {
    if '0' <= c <= '9' then c as int - '0' as int
    else if 'a' <= c <= 'z' then c as int - 'a' as int + 10
    else if 'A' <= c <= 'Z' then c as int - 'A' as int + 10
    else 36
  }

  predicate IsDigit(c: char, radix: nat) {
    DigitValue(c) < radix
  }

  /** The length of the run of `radix` digits that starts `s`. */
  function DigitRun(s: string, radix: nat): (n: nat)
    ensures n <= |s|
    ensures forall i :: 0 <= i < n ==> IsDigit(s[i], radix)
    ensures n == |s| || !IsDigit(s[n], radix)
  {
    if s != [] && IsDigit(s[0], radix) then 1 + DigitRun(s[1..], radix) else 0
  }

  /** The number that a string of `radix` digits denotes. */
  function ValueOf(digits: string, radix: nat): nat
    requires forall i :: 0 <= i < |digits| ==> IsDigit(digits[i], radix)
  {
    if digits == [] then 0
    else Shift(ValueOf(digits[..|digits| - 1], radix), radix) + DigitValue(digits[|digits| - 1])
  }

  /** The digits after the sign: base 16 after a `0x` or `0X` prefix and
      base 10 otherwise, as many as there are; nothing when there are none. */
  function ParseMagnitude(u: string): Option<nat> {
    var hex := |u| >= 2 && u[0] == '0' && (u[1] == 'x' || u[1] == 'X');
    var radix := if hex then 16 else 10;
    var body := if hex then u[2..] else u;
    var n := DigitRun(body, radix);
    if n == 0 then None else Some(ValueOf(body[..n], radix))
  }

  /** `value` moved one place left in base `radix`. */
  function Shift(value: nat, radix: nat): nat {
    value * radix
  }

  /** What `parseInt` reads once the white space is gone: one optional
      sign, then the magnitude; NaN when there are no digits. */
  function ReadSigned(t: string): (r: Option<int>)
    ensures t == [] ==> r.None?
    ensures r.Some? && r.value < 0 ==> t[0] == '-'
    ensures r.Some? ==> exists k :: 0 <= k < |t| && IsDigit(t[k], 10)
  {
    var negative := t != [] && t[0] == '-';
    var u := if t != [] && (t[0] == '+' || t[0] == '-') then t[1..] else t;
    match ParseMagnitude(u)
    case None => None
    case Some(m) => Some(if negative then -(m as int) else m)
  }

  /** `parseInt(s)`: skip leading white space, then read a signed number. */
  function ParseInt(s: string): (r: Option<int>)
    ensures TrimStart(s) == [] ==> r.None?
    ensures r.Some? && r.value < 0 ==> TrimStart(s)[0] == '-'
    ensures r.Some? ==> exists k :: 0 <= k < |s| && IsDigit(s[k], 10)
  {
    var t := TrimStart(s);
    var r := ReadSigned(t);
    assert r.Some? ==> exists k :: 0 <= k < |s| && IsDigit(s[k], 10) by {
      if r.Some? {
        var k :| 0 <= k < |t| && IsDigit(t[k], 10);
        assert t[k] == s[|s| - |t| + k];
      }
    }
    r
  }

  function DigitChar(d: nat): (c: char)
    requires d < 10
    ensures '0' <= c <= '9' && DigitValue(c) == d
  {
    ('0' as int + d) as char
  }

  /** The decimal digits of `n`, without leading zeros. */
  function NatDigits(n: nat): (s: string)
    ensures s != []
    ensures forall i :: 0 <= i < |s| ==> '0' <= s[i] <= '9'
    ensures s[0] == '0' ==> n == 0 && s == "0"
  {
    if n < 10 then [DigitChar(n)] else NatDigits(n / 10) + [DigitChar(n % 10)]
  }

  /** `${n}` for an integer `n`: how the catalog builds `/project/<id>` links. */
  function DecimalString(n: int): string {
    if n < 0 then ['-'] + NatDigits(-n) else NatDigits(n)
  }

  lemma {:induction false} ValueOfNatDigits(n: nat)
    ensures forall i :: 0 <= i < |NatDigits(n)| ==> IsDigit(NatDigits(n)[i], 10)
    ensures ValueOf(NatDigits(n), 10) == n
  {
    if n >= 10 {
      ValueOfNatDigits(n / 10);
      var s := NatDigits(n);
      assert s[..|s| - 1] == NatDigits(n / 10);
    }
  }

  lemma {:induction false} DigitRunOfDigits(a: string, b: string, radix: nat)
    requires forall i :: 0 <= i < |a| ==> IsDigit(a[i], radix)
    requires b == [] || !IsDigit(b[0], radix)
    ensures DigitRun(a + b, radix) == |a|
  {
    if a != [] {
      assert (a + b)[1..] == a[1..] + b;
      DigitRunOfDigits(a[1..], b, radix);
    } else {
      assert a + b == b;
    }
  }

  /** `parseInt` reads back the decimal form of any integer, and ignores
      what follows it when that does not continue the number: the route
      `/project/3abc` looks up project 3. */
  lemma {:induction false} MagnitudeOfDigits(m: nat, rest: string)
    requires rest == [] || (!IsDigit(rest[0], 10) && rest[0] != 'x' && rest[0] != 'X')
    ensures ParseMagnitude(NatDigits(m) + rest) == Some(m)
  {
    var digits := NatDigits(m);
    ValueOfNatDigits(m);
    var u := digits + rest;
    assert !(|u| >= 2 && u[0] == '0' && (u[1] == 'x' || u[1] == 'X')) by {
      if |u| >= 2 && u[0] == '0' {
        assert digits == "0";
        assert u[1] == rest[0];
      }
    }
    DigitRunOfDigits(digits, rest, 10);
    assert u[..|digits|] == digits;
  }

  lemma ParseIntOfDecimal(n: int, rest: string)
    requires rest == [] || (!IsDigit(rest[0], 10) && rest[0] != 'x' && rest[0] != 'X')
    ensures ParseInt(DecimalString(n) + rest) == Some(n)
  {
    if n < 0 {
      var m: nat := -n;
      assert DecimalString(n) == ['-'] + NatDigits(m);
      PrefixThenRest('-', NatDigits(m), rest);
      ParseIntOfNegativeDecimal(m, rest);
    } else {
      ParseIntOfNatDigits(n, rest);
    }
  }

  lemma ParseIntOfNatDigits(m: nat, rest: string)
    requires rest == [] || (!IsDigit(rest[0], 10) && rest[0] != 'x' && rest[0] != 'X')
    ensures ParseInt(NatDigits(m) + rest) == Some(m)
  {
    MagnitudeOfDigits(m, rest);
    var u := NatDigits(m) + rest;
    assert u[0] == NatDigits(m)[0];
    ParseNonNegative(u, m);
  }

  lemma ParseIntOfNegativeDecimal(m: nat, rest: string)
    requires rest == [] || (!IsDigit(rest[0], 10) && rest[0] != 'x' && rest[0] != 'X')
    ensures ParseInt(['-'] + (NatDigits(m) + rest)) == Some(-(m as int))
  {
    MagnitudeOfDigits(m, rest);
    var u := NatDigits(m) + rest;
    assert u[0] == NatDigits(m)[0];
    ParseNegative(u, m);
  }

  lemma PrefixThenRest(c: char, a: string, b: string)
    ensures ([c] + a) + b == [c] + (a + b)
  {
  }

  /** A route id that starts with a decimal digit, and not with `0x` or
      `0X`, reads as its longest leading run of decimal digits in base 10,
      whatever follows: `"03"` reads as 3 and `"12x"` as 12. */
  lemma ParseIntDecimal(t: string)
    requires t != [] && '0' <= t[0] <= '9'
    requires !(|t| >= 2 && t[0] == '0' && (t[1] == 'x' || t[1] == 'X'))
    ensures var n := DigitRun(t, 10);
            n > 0 && ParseInt(t) == Some(ValueOf(t[..n], 10))
  {
    NothingToTrim(t);
    assert t[0] != '-' && t[0] != '+';
    assert IsDigit(t[0], 10);
  }

  /** A sign that is not followed by a decimal digit makes the id NaN:
      `"+ 3"`, `"+-3"` and `"-x"` all read as NaN. */
  lemma ParseIntSignThenJunk(c: char, u: string)
    requires c == '+' || c == '-'
    requires u == [] || !IsDigit(u[0], 10)
    ensures ParseInt([c] + u) == None
  {
    var s := [c] + u;
    assert s[0] == c && s[1..] == u;
    NothingToTrim(s);
    MagnitudeOfJunk(u);
  }

  lemma MagnitudeOfJunk(u: string)
    requires u == [] || !IsDigit(u[0], 10)
    ensures ParseMagnitude(u) == None
  {
  }

  lemma {:induction false} ParseNonNegative(u: string, m: nat)
    requires u != [] && '0' <= u[0] <= '9' && ParseMagnitude(u) == Some(m)
    ensures ParseInt(u) == Some(m)
  {
    NothingToTrim(u);
  }

  lemma {:induction false} ParseNegative(u: string, m: nat)
    requires u != [] && '0' <= u[0] <= '9' && ParseMagnitude(u) == Some(m)
    ensures ParseInt(['-'] + u) == Some(-(m as int))
  {
    SignOrDigitIsNotSpace(u[0]);
    ParseIntMinus(u);
    ParseNonNegative(u, m);
    NegatedSome(ParseInt(u), m);
  }

  lemma NegatedSome(r: Option<int>, v: int)
    requires r == Some(v)
    ensures Negated(r) == Some(-v)
  {
  }

  lemma {:induction false} NothingToTrim(s: string)
    requires s != [] && (s[0] == '-' || s[0] == '+' || '0' <= s[0] <= '9')
    ensures TrimStart(s) == s
  {
    SignOrDigitIsNotSpace(s[0]);
  }

  lemma SignOrDigitIsNotSpace(c: char)
    requires c == '-' || c == '+' || '0' <= c <= '9'
    ensures !IsSpace(c)
  {
    assert c as int < 0x09 || 0x20 < c as int < 0xA0;
  }

  /** A route id with no digits after the white space and sign reads as NaN. */
  lemma NonNumericIdIsNaN(s: string)
    requires var t := TrimStart(s);
             t == [] || (!IsDigit(t[0], 10) && t[0] != '+' && t[0] != '-')
    ensures ParseInt(s) == None
  {
  }

  /** Trimming looks through any amount of leading white space. */
  lemma {:induction false} TrimStartSkips(w: string, s: string)
    requires forall i :: 0 <= i < |w| ==> IsSpace(w[i])
    ensures TrimStart(w + s) == TrimStart(s)
  {
    if w != [] {
      assert (w + s)[0] == w[0];
      assert (w + s)[1..] == w[1..] + s;
      TrimStartSkips(w[1..], s);
    } else {
      assert w + s == s;
    }
  }

  /** Leading white space does not change what an id reads as: `" 3"`
      reads as `"3"`. */
  lemma ParseIntSkipsSpace(w: string, s: string)
    requires forall i :: 0 <= i < |w| ==> IsSpace(w[i])
    ensures ParseInt(w + s) == ParseInt(s)
  {
    TrimStartSkips(w, s);
  }

  /** One leading `+` is accepted and changes nothing: `"+3"` reads as
      `"3"`. */
  lemma ParseIntPlus(u: string)
    requires u == [] || (!IsSpace(u[0]) && u[0] != '+' && u[0] != '-')
    ensures ParseInt(['+'] + u) == ParseInt(u)
  {
    var s := ['+'] + u;
    assert s[0] == '+';
    NothingToTrim(s);
    assert TrimStart(u) == u;
    ReadPlus(u);
  }

  lemma ReadPlus(u: string)
    requires u == [] || (u[0] != '+' && u[0] != '-')
    ensures ReadSigned(['+'] + u) == ReadSigned(u)
  {
    var t := ['+'] + u;
    assert t[0] == '+' && t[1..] == u;
  }

  /** One leading `-` negates what the rest reads as: `"-3"` reads as
      minus `"3"`, and NaN stays NaN. */
  lemma ParseIntMinus(u: string)
    requires u == [] || (!IsSpace(u[0]) && u[0] != '+' && u[0] != '-')
    ensures ParseInt(['-'] + u) == Negated(ParseInt(u))
  {
    var s := ['-'] + u;
    assert s[0] == '-';
    NothingToTrim(s);
    assert TrimStart(u) == u;
    ReadMinus(u);
  }

  lemma ReadMinus(u: string)
    requires u == [] || (u[0] != '+' && u[0] != '-')
    ensures ReadSigned(['-'] + u) == Negated(ReadSigned(u))
  {
    var t := ['-'] + u;
    assert t[0] == '-' && t[1..] == u;
    match ParseMagnitude(u)
    case None =>
      assert ReadSigned(t) == None;
    case Some(m) =>
      assert ReadSigned(t) == Some(-(m as int));
      assert ReadSigned(u) == Some(m);
      NegatedSome(ReadSigned(u), m);
  }

  /** NaN, or the number with its sign flipped. */
  function Negated(r: Option<int>): Option<int> {
    match r
    case None => None
    case Some(v) => Some(-v)
  }

  /** After a `0x` or `0X` prefix the digits are read in base 16; with no
      hex digit after the prefix the id reads as NaN. With a minus sign in
      front, `ParseIntMinus` gives the negated value. */
  lemma ParseIntHex(x: char, h: string)
    requires x == 'x' || x == 'X'
    ensures var n := DigitRun(h, 16);
            ParseInt(['0', x] + h) == if n > 0 then Some(ValueOf(h[..n], 16)) else None
  {
    var u := ['0', x] + h;
    assert u[0] == '0';
    NothingToTrim(u);
    HexMagnitude(x, h);
  }

  lemma HexMagnitude(x: char, h: string)
    requires x == 'x' || x == 'X'
    ensures var n := DigitRun(h, 16);
            ParseMagnitude(['0', x] + h) == if n > 0 then Some(ValueOf(h[..n], 16)) else None
  {
    var u := ['0', x] + h;
    assert u[0] == '0' && u[1] == x && u[2..] == h;
  }

  // ---------------------------------------------------------------------
  // Lookup and related projects

  /** `projectsData.find(p => p.id === parseInt(id))`: the first project
      whose id is the parsed route id. NaN equals no id. */
  function LookupProject(projects: seq<Project>, routeId: string): (r: Option<Project>)
    ensures r.Some? ==> r.value in projects && ParseInt(routeId) == Some(r.value.id)
    ensures r.None? <==> forall p :: p in projects ==> ParseInt(routeId) != Some(p.id)
    ensures r.Some? ==> exists k :: 0 <= k < |projects| && projects[k] == r.value &&
                                    forall m :: 0 <= m < k ==> ParseInt(routeId) != Some(projects[m].id)
  {
    var key := ParseInt(routeId);
    FindFirst(projects, (p: Project) => key == Some(p.id))
  }

  predicate UniqueIds(projects: seq<Project>) {
    forall i, j :: 0 <= i < |projects| && 0 <= j < |projects| && projects[i].id == projects[j].id ==> i == j
  }

  /** Following a project's link finds the first project carrying its id;
      when ids are unique, that is the project itself. */
  lemma LinkFindsProject(projects: seq<Project>, k: nat)
    requires k < |projects|
    ensures var r := LookupProject(projects, DecimalString(projects[k].id));
            && r.Some?
            && r.value.id == projects[k].id
            && (exists m :: 0 <= m <= k && projects[m] == r.value &&
                 forall j :: 0 <= j < m ==> projects[j].id != projects[k].id)
            && (UniqueIds(projects) ==> r.value == projects[k])
  {
    var id := projects[k].id;
    ParseIntOfDecimal(id, "");
    assert DecimalString(id) + "" == DecimalString(id);
    var p := (q: Project) => Some(id) == Some(q.id);
    var r := FindFirst(projects, p);
    assert p(projects[k]);
    var m :| 0 <= m < |projects| && projects[m] == r.value && p(projects[m]) &&
             forall j :: 0 <= j < m ==> !p(projects[j]);
    assert m <= k;
  }

  /** The projects offered under "Related Projects": the first three other
      projects of the same category, in fixture order. */
  function RelatedProjects(projects: seq<Project>, current: Project): (r: seq<Project>)
    ensures |r| <= 3
    ensures forall p :: p in r ==> p in projects && p.id != current.id && p.category == current.category
  {
    var q := Filter(projects, (p: Project) => p.id != current.id && p.category == current.category);
    var r := Slice(q, 0, 3);
    assert forall p :: p in r ==> p in q;
    r
  }

  lemma RelatedProjectsAreRelated(projects: seq<Project>, current: Project)
    ensures var r := RelatedProjects(projects, current);
            var q := Filter(projects, (p: Project) => p.id != current.id && p.category == current.category);
            && |r| == (if |q| < 3 then |q| else 3)
            && r == q[..|r|]
            && current !in r
            && (forall p :: p in r ==> p.id != current.id && p.category == current.category)
            && SubsequenceOf(r, projects)
  {
    var q := Filter(projects, (p: Project) => p.id != current.id && p.category == current.category);
    var r := RelatedProjects(projects, current);
    SliceIsSubsequence(q, 0, 3);
    FilterIsSubsequence(projects, (p: Project) => p.id != current.id && p.category == current.category);
    SubsequenceTransitive(r, q, projects);
    assert forall p :: p in r ==> p in q;
  }

  /** What the route renders. */
  datatype Screen =
    | Loading
    | NotFound
    | Detail(project: Project, related: seq<Project>)

  /** The state held by the page: the project found and the loading flag. */
  class ProjectDetailPage {
    const projectsData: seq<Project>
    var project: Option<Project>
    var loading: bool

    constructor (projectsData: seq<Project>)
      ensures this.projectsData == projectsData
      ensures project == None && loading
    {
      this.projectsData := projectsData;
      project := None;
      loading := true;
    }

    /** The effect run for each new route id. */
    method OnId(routeId: string)
      modifies this
      ensures project == LookupProject(projectsData, routeId)
      ensures !loading
    {
      project := LookupProject(projectsData, routeId);
      loading := false;
    }

    /** The render: a spinner while loading, "Project Not Found" when no
        project has the id, and otherwise the project with its related
        projects, computed afresh on every render. */
    function View(): (screen: Screen)
      reads this
      ensures screen.Loading? <==> loading
      ensures screen.NotFound? <==> !loading && project.None?
      ensures screen.Detail? ==> Some(screen.project) == project &&
                                 screen.related == RelatedProjects(projectsData, screen.project)
    {
      if loading then Loading
      else match project
        case None => NotFound
        case Some(p) => Detail(p, RelatedProjects(projectsData, p))
    }
  }

  /** Once the effect has run for a route id, the page shows "Project Not
      Found" exactly when no project has the parsed id, and otherwise a
      project carrying it. */
  lemma NotFoundIffNoSuchId(page: ProjectDetailPage, routeId: string)
    requires !page.loading && page.project == LookupProject(page.projectsData, routeId)
    ensures page.View().NotFound? <==> forall p :: p in page.projectsData ==> ParseInt(routeId) != Some(p.id)
    ensures page.View().Detail? ==>
              && page.View().project in page.projectsData
              && ParseInt(routeId) == Some(page.View().project.id)
  {
  }
}
