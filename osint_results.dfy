/** The results panel of the OSINT platform: it renders nothing without a
    query or without findings, groups the findings by category (groups in
    order of their category's first appearance, findings in input order)
    and names the exported JSON file. The export and share handlers' DOM,
    clipboard and toast effects are left out. */
module OsintResults {
  import opened Wrappers
  import opened OsintService

  /** The guard in front of the panel. */
  function ShouldRender(query: Option<Query>, results: seq<OsintResult>): (render: bool)
    ensures render <==> query.Some? && |results| != 0
  {
    if query.None? || |results| == 0 then false else true
  }

  /** A search renders a panel exactly when its type is one the service
      knows. */
  lemma RenderAfterSearch(q: Query, uuid: nat -> string)
    ensures ShouldRender(Some(q), PerformOsintSearch(q, uuid))
            <==> q.kind == "domain" || q.kind == "email" || q.kind == "person"
  {
  }

  /** `osint-<type>-<value>-<date>.json`, the date being the first ten
      characters of the ISO timestamp. */
  function ExportFileName(q: Query, isoTimestamp: string): (name: string)
  {
    var day := if |isoTimestamp| < 10 then isoTimestamp else isoTimestamp[..10];
    "osint-" + q.kind + "-" + q.value + "-" + day + ".json"
  }

  /** The file name is made of the prefix, the query type, the value, the
      calendar day of an ISO timestamp and the `.json` suffix, in that
      order. */
  lemma ExportFileNameParts(q: Query, day: string, time: string)
    requires |day| == 10
    ensures var name := ExportFileName(q, day + time);
            && name[..6] == "osint-"
            && name[6..6 + |q.kind|] == q.kind
            && name[7 + |q.kind|..7 + |q.kind| + |q.value|] == q.value
            && name[8 + |q.kind| + |q.value|..18 + |q.kind| + |q.value|] == day
            && name[18 + |q.kind| + |q.value|..] == ".json"
            && |name| == 23 + |q.kind| + |q.value|
  {
    assert (day + time)[..10] == day;
  }

  // ---- the reference definitions of the grouping

  /** The categories in order of first appearance. */
  function Categories(rs: seq<OsintResult>): (cs: seq<string>)
    ensures forall i, j :: 0 <= i < j < |cs| ==> cs[i] != cs[j]
    decreases |rs|
  {
    if |rs| == 0 then []
    else
      var cs := Categories(rs[..|rs| - 1]);
      var c := rs[|rs| - 1].category;
      if c in cs then cs else cs + [c]
  }

  /** The findings of category `c`, in input order. */
  function Group(rs: seq<OsintResult>, c: string): seq<OsintResult>
    decreases |rs|
  {
    if |rs| == 0 then []
    else Group(rs[..|rs| - 1], c) + (if rs[|rs| - 1].category == c then [rs[|rs| - 1]] else [])
  }

  /** The total size of the groups of the categories `cs`. */
  function TotalSize(rs: seq<OsintResult>, cs: seq<string>): nat {
    if |cs| == 0 then 0 else |Group(rs, cs[0])| + TotalSize(rs, cs[1..])
  }

  // ---- their properties

  /** A category is listed exactly when some finding has it. */
  lemma {:induction false} CategoriesListed(rs: seq<OsintResult>, c: string)
    ensures c in Categories(rs) <==> exists i :: 0 <= i < |rs| && rs[i].category == c
    decreases |rs|
  {
    if |rs| > 0 {
      var init := rs[..|rs| - 1];
      CategoriesListed(init, c);
      assert forall i :: 0 <= i < |init| ==> init[i] == rs[i];
    }
  }

  /** A group holds exactly the findings of its category. */
  lemma {:induction false} GroupMembers(rs: seq<OsintResult>, c: string, x: OsintResult)
    ensures x in Group(rs, c) <==> x in rs && x.category == c
    decreases |rs|
  {
    if |rs| > 0 {
      var init := rs[..|rs| - 1];
      GroupMembers(init, c, x);
      assert rs == init + [rs[|rs| - 1]];
    }
  }

  /** No listed category has an empty group. */
  lemma GroupNotEmpty(rs: seq<OsintResult>, c: string)
    requires c in Categories(rs)
    ensures |Group(rs, c)| > 0
  {
    CategoriesListed(rs, c);
    var i :| 0 <= i < |rs| && rs[i].category == c;
    GroupMembers(rs, c, rs[i]);
  }

  /** Grouping commutes with concatenation: each group keeps the input
      order. */
  lemma {:induction false} GroupConcat(rs: seq<OsintResult>, ts: seq<OsintResult>, c: string)
    ensures Group(rs + ts, c) == Group(rs, c) + Group(ts, c)
    decreases |ts|
  {
    if |ts| > 0 {
      var init := ts[..|ts| - 1];
      GroupConcat(rs, init, c);
      assert (rs + ts)[..|rs + ts| - 1] == rs + init;
    } else {
      assert rs + ts == rs;
    }
  }

  /** The categories of a prefix come first, in the same order. */
  lemma {:induction false} CategoriesPrefix(rs: seq<OsintResult>, n: nat)
    requires n <= |rs|
    ensures var p := Categories(rs[..n]); |p| <= |Categories(rs)| && Categories(rs)[..|p|] == p
    decreases |rs| - n
  {
    if n < |rs| {
      CategoriesPrefix(rs, n + 1);
      assert rs[..n + 1][..n] == rs[..n];
    } else {
      assert rs[..n] == rs;
    }
  }

  lemma {:induction false} TotalSizeAppend(rs: seq<OsintResult>, cs: seq<string>, c: string)
    ensures TotalSize(rs, cs + [c]) == TotalSize(rs, cs) + |Group(rs, c)|
    decreases |cs|
  {
    if |cs| == 0 {
      assert TotalSize(rs, [c]) == |Group(rs, c)| + TotalSize(rs, []);
    } else {
      assert (cs + [c])[1..] == cs[1..] + [c];
      TotalSizeAppend(rs, cs[1..], c);
    }
  }

  /** Adding a finding adds one to the total over distinct categories that
      include its own, and nothing over those that do not. */
  lemma {:induction false} TotalSizeStep(rs: seq<OsintResult>, x: OsintResult, cs: seq<string>)
    requires forall i, j :: 0 <= i < j < |cs| ==> cs[i] != cs[j]
    ensures TotalSize(rs + [x], cs) == TotalSize(rs, cs) + (if x.category in cs then 1 else 0)
    decreases |cs|
  {
    if |cs| > 0 {
      assert (rs + [x])[..|rs|] == rs;
      TotalSizeStep(rs, x, cs[1..]);
      assert x.category in cs <==> x.category == cs[0] || x.category in cs[1..];
      if x.category == cs[0] {
        assert cs[0] !in cs[1..];
      }
    }
  }

  /** The group sizes add up to the number of findings. */
  lemma {:induction false} GroupSizesSum(rs: seq<OsintResult>)
    ensures TotalSize(rs, Categories(rs)) == |rs|
    decreases |rs|
  {
    if |rs| > 0 {
      var init := rs[..|rs| - 1];
      var x := rs[|rs| - 1];
      assert rs == init + [x];
      GroupSizesSum(init);
      var cs := Categories(init);
      TotalSizeStep(init, x, cs);
      if x.category !in cs {
        TotalSizeAppend(rs, cs, x.category);
        TotalSizeStep(init, x, cs + [x.category]);
        TotalSizeAppend(init, cs, x.category);
        CategoriesListed(init, x.category);
        if |Group(init, x.category)| > 0 {
          GroupMembers(init, x.category, Group(init, x.category)[0]);
        }
      }
    }
  }

  /** Six findings whose categories run a, a, b, a, c, d (all different)
      form the groups a, b, c, d, and group a holds three findings. */
  lemma SixFindingsGroups(rs: seq<OsintResult>, a: string, b: string, c: string, d: string)
    requires |rs| == 6 && a != b && a != c && a != d && b != c && b != d && c != d
    requires rs[0].category == a && rs[1].category == a && rs[2].category == b
    requires rs[3].category == a && rs[4].category == c && rs[5].category == d
    ensures Categories(rs) == [a, b, c, d] && |Group(rs, a)| == 3
  {
    assert rs[..1][..0] == [];
    assert rs[..2][..1] == rs[..1];
    assert rs[..3][..2] == rs[..2];
    assert rs[..4][..3] == rs[..3];
    assert rs[..5][..4] == rs[..4];
    assert rs[..6][..5] == rs[..5];
    assert rs[..6] == rs;
    assert Categories(rs[..1]) == [a] && Group(rs[..1], a) == [rs[0]];
    assert Categories(rs[..2]) == [a] && Group(rs[..2], a) == [rs[0], rs[1]];
    assert Categories(rs[..3]) == [a, b] && Group(rs[..3], a) == [rs[0], rs[1]];
    assert Categories(rs[..4]) == [a, b] && Group(rs[..4], a) == [rs[0], rs[1], rs[3]];
    assert Categories(rs[..5]) == [a, b, c] && Group(rs[..5], a) == [rs[0], rs[1], rs[3]];
  }

  /** A domain search shows four groups, the first holding three findings. */
  lemma DomainSearchGroups(domain: string, uuid: nat -> string)
    ensures var rs := DomainResults(domain, uuid);
            && Categories(rs) == ["Domain Intelligence", "Server Information", "Technical Analysis", "Security Information"]
            && |Group(rs, "Domain Intelligence")| == 3
  {
    var rs := DomainResults(domain, uuid);
    var di, si, ta, sc := "Domain Intelligence", "Server Information", "Technical Analysis", "Security Information";
    assert si != di && ta != di && ta != si && sc != di && sc != si && sc != ta by {
      assert si[0] == 'S' && ta[0] == 'T' && di[0] == 'D' && sc[1] == 'e' && si[1] == 'e' && si[2] == 'r' && sc[2] == 'c';
    }
    SixFindingsGroups(rs, di, si, ta, sc);
  }

  /** One more finding: its category is listed if it is new, and it joins
      its own group only; a category not yet listed had an empty group. */
  lemma PrefixStep(rs: seq<OsintResult>, i: nat)
    requires i < |rs|
    ensures var x := rs[i];
            Categories(rs[..i + 1])
            == if x.category in Categories(rs[..i]) then Categories(rs[..i]) else Categories(rs[..i]) + [x.category]
    ensures forall c :: Group(rs[..i + 1], c) == Group(rs[..i], c) + (if rs[i].category == c then [rs[i]] else [])
    ensures rs[i].category !in Categories(rs[..i]) ==> Group(rs[..i], rs[i].category) == []
  {
    assert rs[..i + 1][..i] == rs[..i];
    var c := rs[i].category;
    if c !in Categories(rs[..i]) {
      CategoriesListed(rs[..i], c);
      if |Group(rs[..i], c)| > 0 {
        GroupMembers(rs[..i], c, Group(rs[..i], c)[0]);
      }
    }
  }

  // ---- the grouping as the component does it

  /** `categoryGroups`: one pass over the findings, creating a category's
      list when it is first met and appending the finding to it. `order` is
      the order in which the keys were created, the order the panel shows
      them in. */
  method GroupByCategory(results: seq<OsintResult>) returns (order: seq<string>, groups: map<string, seq<OsintResult>>)
    ensures order == Categories(results)
    ensures forall c :: c in groups <==> c in order
    ensures forall c :: c in groups ==> groups[c] == Group(results, c)
  {
    order, groups := [], map[];
    var i := 0;
    while i < |results|
      invariant 0 <= i <= |results|
      invariant order == Categories(results[..i])
      invariant forall c :: c in groups <==> c in order
      invariant forall c :: c in groups ==> groups[c] == Group(results[..i], c)
    {
      var r := results[i];
      PrefixStep(results, i);
      if r.category !in groups {
        groups := groups[r.category := []];
        order := order + [r.category];
      }
      groups := groups[r.category := groups[r.category] + [r]];
      i := i + 1;
    }
    assert results[..i] == results;
  }
}
