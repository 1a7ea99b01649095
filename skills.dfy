/** The skills section: the tech stack is grouped by category with a
    `reduce` that fills a dictionary in place, and the groups are rendered
    in the order the dictionary's keys were created. */
module Skills {
  import opened Seqs

  /** One entry of the tech stack; icon and colours are presentation. */
  datatype Skill = Skill(name: string, category: string, level: int)

  /** The dictionary built by the reduce: its keys in creation order (the
      order `Object.entries` lists them in) and the list kept under each. */
  datatype Grouping = Grouping(keys: seq<string>, groups: map<string, seq<Skill>>)

  /** The entries of the tech stack that are not commented out, in four
      runs of one category each. */
  const Frontend: seq<Skill> := [
    Skill("HTML5", "Frontend", 72),
    Skill("CSS3", "Frontend", 64),
    Skill("JavaScript", "Frontend", 86),
    Skill("React.js", "Frontend", 68),
    Skill("Tailwind CSS", "Frontend", 70)]
  const Backend: seq<Skill> := [
    Skill("Node.js", "Backend", 59),
    Skill("PHP", "Backend", 57),
    Skill("Python", "Backend", 55)]
  const Database: seq<Skill> := [
    Skill("MongoDB", "Database", 59),
    Skill("PostgreSQL", "Database", 57),
    Skill("Redis", "Database", 55)]
  const Tools: seq<Skill> := [
    Skill("Git", "Tools", 70),
    Skill("GitHub", "Tools", 72),
    Skill("Docker", "Tools", 54),
    Skill("AWS", "Tools", 56)]
  const TechStack: seq<Skill> := Frontend + Backend + Database + Tools

  function CategoriesOf(skills: seq<Skill>): (r: seq<string>)
    ensures |r| == |skills|
    ensures forall i :: 0 <= i < |skills| ==> r[i] == skills[i].category
  {
    seq(|skills|, i requires 0 <= i < |skills| => skills[i].category)
  }

  /** The categories, each once, in the order they first appear. */
  function Keys(skills: seq<Skill>): seq<string> {
    Distinct(CategoriesOf(skills))
  }

  /** The skills of one category, in tech-stack order. */
  function Group(skills: seq<Skill>, category: string): seq<Skill> {
    Filter(skills, (s: Skill) => s.category == category)
  }

  lemma GroupSnoc(skills: seq<Skill>, x: Skill, category: string)
    ensures Group(skills + [x], category) ==
            Group(skills, category) + (if x.category == category then [x] else [])
  {
    var p := (s: Skill) => s.category == category;
    FilterConcat(skills, [x], p);
    assert Filter([x], p) == (if p(x) then [x] else []) + Filter([], p);
  }

  lemma KeysSnoc(skills: seq<Skill>, x: Skill)
    ensures Keys(skills + [x]) ==
            if x.category in Keys(skills) then Keys(skills) else Keys(skills) + [x.category]
  {
    var cs := CategoriesOf(skills + [x]);
    assert cs[..|cs| - 1] == CategoriesOf(skills);
  }

  /** `keys` and `groups` are the dictionary the reduce has built once it
      has gone through `skills`. */
  ghost predicate GroupedSoFar(keys: seq<string>, groups: map<string, seq<Skill>>, skills: seq<Skill>) {
    && keys == Keys(skills)
    && (forall c :: c in groups <==> c in keys)
    && forall c :: c in groups ==> groups[c] == Group(skills, c)
  }

  /** One call of the reducer keeps the dictionary in step with the skills
      seen: `keys'` and `groups'` are `keys` and `groups` after the call. */
  lemma {:induction false} ReduceStep(keys: seq<string>, groups: map<string, seq<Skill>>, skills: seq<Skill>, x: Skill,
                                      keys': seq<string>, groups': map<string, seq<Skill>>)
    requires GroupedSoFar(keys, groups, skills)
    requires keys' == if x.category in groups then keys else keys + [x.category]
    requires var created := if x.category in groups then groups else groups[x.category := []];
             groups' == created[x.category := created[x.category] + [x]]
    ensures GroupedSoFar(keys', groups', skills + [x])
  {
    KeysSnoc(skills, x);
    if x.category !in groups {
      NoGroupYet(skills, x.category);
    }
    forall c | c in groups' ensures groups'[c] == Group(skills + [x], c) {
      GroupSnoc(skills, x, c);
    }
  }

  lemma NoGroupYet(skills: seq<Skill>, c: string)
    requires c !in Keys(skills)
    ensures Group(skills, c) == []
  {
    GroupsAreNonEmpty(skills, c);
  }

  lemma PrefixGrows(s: seq<Skill>, i: nat)
    requires i < |s|
    ensures s[..i + 1] == s[..i] + [s[i]]
  {
  }

  /** `techStack.reduce(...)`: for each skill, create its category's list
      when the dictionary has none yet, then push the skill onto it. */
  method GroupByCategory(techStack: seq<Skill>) returns (g: Grouping)
    ensures g.keys == Keys(techStack)
    ensures forall c :: c in g.groups <==> c in g.keys
    ensures forall c :: c in g.groups ==> g.groups[c] == Group(techStack, c)
  {
    var keys: seq<string> := [];
    var groups: map<string, seq<Skill>> := map[];
    for i := 0 to |techStack|
      invariant GroupedSoFar(keys, groups, techStack[..i])
    {
      var skill := techStack[i];
      ghost var keys0, groups0 := keys, groups;
      if skill.category !in groups {
        keys := keys + [skill.category];
        groups := groups[skill.category := []];
      }
      groups := groups[skill.category := groups[skill.category] + [skill]];
      ReduceStep(keys0, groups0, techStack[..i], skill, keys, groups);
      PrefixGrows(techStack, i);
    }
    assert techStack[..|techStack|] == techStack;
    g := Grouping(keys, groups);
  }

  /** Every skill lands in exactly one group: the one of its category. */
  lemma SkillInExactlyOneGroup(skills: seq<Skill>, x: Skill, category: string)
    requires x in skills
    ensures x.category in Keys(skills)
    ensures x in Group(skills, category) <==> category == x.category
  {
    assert x.category in CategoriesOf(skills) by {
      var i :| 0 <= i < |skills| && skills[i] == x;
      assert CategoriesOf(skills)[i] == x.category;
    }
  }

  /** A group keeps the skills' relative order. */
  lemma GroupKeepsOrder(skills: seq<Skill>, category: string)
    ensures SubsequenceOf(Group(skills, category), skills)
  {
    FilterIsSubsequence(skills, (s: Skill) => s.category == category);
  }

  /** Only categories that occur get a key, and no group is empty. */
  lemma GroupsAreNonEmpty(skills: seq<Skill>, category: string)
    ensures category in Keys(skills) <==> Group(skills, category) != []
  {
    if category in Keys(skills) {
      var i :| 0 <= i < |skills| && CategoriesOf(skills)[i] == category;
      assert skills[i] in Group(skills, category);
    }
    if Group(skills, category) != [] {
      var x := Group(skills, category)[0];
      assert x in skills;
      SkillInExactlyOneGroup(skills, x, category);
    }
  }

  /** The sum of the sizes of the groups named in `keys`. */
  function GroupSizes(skills: seq<Skill>, keys: seq<string>): nat {
    if keys == [] then 0 else |Group(skills, keys[0])| + GroupSizes(skills, keys[1..])
  }

  lemma {:induction false} GroupSizesCons(x: Skill, skills: seq<Skill>, keys: seq<string>)
    requires NoDuplicates(keys)
    ensures GroupSizes([x] + skills, keys) ==
            GroupSizes(skills, keys) + (if x.category in keys then 1 else 0)
  {
    if keys != [] {
      var p := (s: Skill) => s.category == keys[0];
      FilterCons(x, skills, p);
      GroupSizesCons(x, skills, keys[1..]);
      assert x.category in keys <==> x.category == keys[0] || x.category in keys[1..];
      assert x.category == keys[0] ==> x.category !in keys[1..];
    }
  }

  lemma {:induction false} GroupSizesCover(skills: seq<Skill>, keys: seq<string>)
    requires NoDuplicates(keys)
    requires forall x :: x in skills ==> x.category in keys
    ensures GroupSizes(skills, keys) == |skills|
  {
    if skills == [] {
      GroupSizesOfNothing(keys);
    } else {
      GroupSizesCover(skills[1..], keys);
      assert skills == [skills[0]] + skills[1..];
      GroupSizesCons(skills[0], skills[1..], keys);
    }
  }

  lemma {:induction false} GroupSizesOfNothing(keys: seq<string>)
    ensures GroupSizes([], keys) == 0
  {
    if keys != [] {
      GroupSizesOfNothing(keys[1..]);
    }
  }

  /** The group sizes add up to the length of the tech stack. */
  lemma GroupSizesSum(skills: seq<Skill>)
    ensures GroupSizes(skills, Keys(skills)) == |skills|
  {
    forall x | x in skills ensures x.category in Keys(skills) {
      SkillInExactlyOneGroup(skills, x, x.category);
    }
    GroupSizesCover(skills, Keys(skills));
  }

  /** Some skill before position `k` has category `c`. */
  predicate SeenBefore(skills: seq<Skill>, c: string, k: int) {
    exists m :: 0 <= m < k && m < |skills| && skills[m].category == c
  }

  /** The categories are rendered in first-appearance order: a category
      listed before another occurs in the tech stack before any skill of
      the later one. */
  lemma KeysInFirstAppearanceOrder(skills: seq<Skill>)
    ensures forall i, j, k :: (0 <= i < j < |Keys(skills)| && 0 <= k < |skills| &&
                               skills[k].category == Keys(skills)[j]) ==>
              SeenBefore(skills, Keys(skills)[i], k)
  {
    var cs := CategoriesOf(skills);
    var keys := Keys(skills);
    DistinctFirstAppearance(cs);
    forall i, j, k | 0 <= i < j < |keys| && 0 <= k < |skills| && skills[k].category == keys[j]
      ensures SeenBefore(skills, keys[i], k)
    {
      assert cs[k] == keys[j];
      assert keys[i] in cs[..k];
      var m :| 0 <= m < k && cs[..k][m] == keys[i];
      assert skills[m].category == keys[i];
    }
  }

  /** A run of skills of one new category adds that category as the next key. */
  lemma {:induction false} KeysOfRun(pre: seq<Skill>, run: seq<Skill>, c: string)
    requires run != [] && forall x :: x in run ==> x.category == c
    requires c !in Keys(pre)
    ensures Keys(pre + run) == Keys(pre) + [c]
  {
    var front := run[..|run| - 1];
    var x := run[|run| - 1];
    assert pre + run == (pre + front) + [x];
    if front == [] {
      assert pre + front == pre;
      KeysSnoc(pre, x);
    } else {
      assert forall y :: y in front ==> y in run;
      KeysOfRun(pre, front, c);
      KeysSnoc(pre + front, x);
    }
  }

  /** In a run of one category, that category's group is the whole run and
      every other group is empty. */
  lemma {:induction false} GroupOfRun(run: seq<Skill>, c: string, d: string)
    requires forall x :: x in run ==> x.category == c
    ensures Group(run, d) == if d == c then run else []
  {
    if run != [] {
      var x, t := run[0], run[1..];
      assert x in run;
      assert forall y :: y in t ==> y in run;
      GroupOfRun(t, c, d);
      assert Group(run, d) == (if x.category == d then [x] else []) + Group(t, d);
      if d == c {
        assert [x] + t == run;
      }
    }
  }

  /** All of `run` is of category `c`. */
  predicate RunOf(run: seq<Skill>, c: string) {
    run != [] && forall x :: x in run ==> x.category == c
  }

  /** Four runs of four different categories give four keys, in run order. */
  lemma FourRunsKeys(f: seq<Skill>, b: seq<Skill>, d: seq<Skill>, t: seq<Skill>,
                     cf: string, cb: string, cd: string, ct: string)
    requires RunOf(f, cf) && RunOf(b, cb) && RunOf(d, cd) && RunOf(t, ct)
    requires NoDuplicates([cf, cb, cd, ct])
    ensures Keys(f + b + d + t) == [cf, cb, cd, ct]
  {
    assert cf != cb && cf != cd && cf != ct && cb != cd && cb != ct && cd != ct by {
      var cs := [cf, cb, cd, ct];
      assert cs[0] == cf && cs[1] == cb && cs[2] == cd && cs[3] == ct;
    }
    KeysOfFirstRun(f, cf);
    KeysOfRun(f, b, cb);
    var fb := f + b;
    assert Keys(fb) == [cf, cb];
    KeysOfRun(fb, d, cd);
    var fbd := fb + d;
    assert Keys(fbd) == [cf, cb, cd];
    KeysOfRun(fbd, t, ct);
  }

  lemma KeysOfFirstRun(f: seq<Skill>, cf: string)
    requires RunOf(f, cf)
    ensures Keys(f) == [cf]
  {
    assert f == [] + f;
    KeysOfRun([], f, cf);
  }

  /** ... and groups as large as the runs. */
  lemma FourRunsGroups(f: seq<Skill>, b: seq<Skill>, d: seq<Skill>, t: seq<Skill>,
                       cf: string, cb: string, cd: string, ct: string, c: string)
    requires RunOf(f, cf) && RunOf(b, cb) && RunOf(d, cd) && RunOf(t, ct)
    ensures |Group(f + b + d + t, c)| ==
            (if c == cf then |f| else 0) + (if c == cb then |b| else 0) +
            (if c == cd then |d| else 0) + (if c == ct then |t| else 0)
  {
    var p := (s: Skill) => s.category == c;
    FilterConcat(f, b, p);
    FilterConcat(f + b, d, p);
    FilterConcat(f + b + d, t, p);
    GroupOfRun(f, cf, c);
    GroupOfRun(b, cb, c);
    GroupOfRun(d, cd, c);
    GroupOfRun(t, ct, c);
  }

  /** The section shows four categories, in this order, with five, three,
      three and four skills. */
  lemma TechStackSections(c: string)
    ensures Keys(TechStack) == ["Frontend", "Backend", "Database", "Tools"]
    ensures |Group(TechStack, c)| ==
            if c == "Frontend" then 5 else if c == "Backend" then 3
            else if c == "Database" then 3 else if c == "Tools" then 4 else 0
  {
    FourRunsKeys(Frontend, Backend, Database, Tools, "Frontend", "Backend", "Database", "Tools");
    FourRunsGroups(Frontend, Backend, Database, Tools, "Frontend", "Backend", "Database", "Tools", c);
  }
}
