/** The SFP library converter (cwe_sfp_to_threatspec.py): the categories of the
    Software Fault Pattern view become library threats under "@sfp", their
    sub-categories hang under them, and every weakness filed under one of them
    becomes a threat whose parent is that category. The weakness pass uses the
    corrected parent `SfpParent`: as written (`SfpParentAsWritten`) a weakness
    with a single relationship gets no parent and is dropped. */
module SfpCatalogue {
  import opened Wrappers
  import opened Chars
  import opened Identifiers
  import opened Assignments
  import opened CweCatalogue

  const SfpViewName: string := "Software Fault Pattern (SFP) Clusters"

  /** The parent of the top-level SFP categories. */
  const SfpRoot: string := "@sfp"

  // ---------------------------------------------------------------- records

  /** One `View` element: `@ID`, `@Name` and its list of relationships. */
  datatype View = View(id: string, name: string, relationships: seq<Relationship>)

  /** `Relationships.Relationship` of a category: absent, one element (its
      target and the texts of its `Relationship_View_ID`s, one or a list),
      or a list of elements, which the sub-category pass skips. */
  datatype CategoryLinks = NoLinks | Link(targetId: string, viewIds: seq<string>) | SeveralLinks

  /** One `Category` element: `@ID`, `@Name`, `Relationships`. */
  datatype Category = Category(id: string, name: string, links: CategoryLinks)

  /** A `category_map` entry. */
  datatype CategoryInfo = CategoryInfo(id: string, name: string)

  /** The KeyError of a `category_map` lookup, which ends the conversion. */
  datatype LibraryError = MissingCategory(id: string)

  // ---------------------------------------------------------------- category names and ids

  /** Stripping only removes characters. */
  lemma StripWithin(s: string, x: char)
    requires x !in s
    ensures x !in Strip(s)
  {
    var l := StripLeft(s);
    assert forall k | 0 <= k < |l| :: l[k] == s[|s| - |l| + k];
    var r := StripRight(l);
    assert forall k | 0 <= k < |r| :: r[k] == l[k];
  }

  /** `create_category_name`: for a name with a colon, the stripped text
      between the first colon and the next one (`name.split(":")[1].strip()`);
      otherwise the whole name. */
  function CreateCategoryName(c: Category): (r: string)
    ensures ':' !in c.name ==> r == c.name
    ensures ':' in c.name ==> ':' !in r && (r == [] || (!IsSpace(r[0]) && !IsSpace(r[|r| - 1])))
  {
    var name := c.name;
    if ':' in name then
      var head := TakeUntil(name, ':');
      var segment := TakeUntil(name[|head| + 1..], ':');
      StripWithin(segment, ':');
      Strip(segment)
    else name
  }

  /** Cutting "prefix:" off the front of a category name. */
  lemma CategoryNameHead(name: string, prefix: string, body: string)
    requires ':' !in prefix && name == prefix + ":" + body
    ensures ':' in name && TakeUntil(name, ':') == prefix
    ensures name[|prefix| + 1..] == body
  {
    assert name == prefix + (":" + body);
    TakeUntilPrefix(prefix, ":" + body, ':');
  }

  /** The title segment ends at the next colon, or at the end. */
  lemma CategoryNameTitle(title: string, rest: string)
    requires ':' !in title && (rest == [] || rest[0] == ':')
    ensures TakeUntil(title + rest, ':') == title
  {
    if rest == [] {
      assert title + rest == title;
      assert |TakeUntil(title, ':')| == |title|;
    } else {
      TakeUntilPrefix(title, rest, ':');
    }
  }

  /** "Prefix: title" and "Prefix: title: more" both name the category "title", stripped. */
  lemma CategoryNameSegment(c: Category, prefix: string, title: string, rest: string)
    requires ':' !in prefix && ':' !in title
    requires rest == [] || rest[0] == ':'
    requires c.name == prefix + ":" + title + rest
    ensures CreateCategoryName(c) == Strip(title)
  {
    assert c.name == prefix + ":" + (title + rest);
    CategoryNameHead(c.name, prefix, title + rest);
    CategoryNameTitle(title, rest);
  }

  /** `create_category_id`: "@" + the sanitised category name. */
  function CreateCategoryId(c: Category): (r: string)
    ensures IsIdentifier(r) && IdChars(r[1..]) && r[1..] == Sanitize(CreateCategoryName(c))
    ensures TextToIdentifier(r) == r
  {
    var r := "@" + Sanitize(CreateCategoryName(c));
    assert r[1..] == Sanitize(CreateCategoryName(c));
    r
  }

  // ---------------------------------------------------------------- pass 1: the SFP view

  predicate IsMember(r: Relationship)
  {
    r.targetForm == "Category" && r.nature == "HasMember"
  }

  /** The `@ID` of the last view named `SfpViewName`; "" when there is none. */
  function SfpViewId(views: seq<View>): string
    decreases |views|
  {
    if views == [] then ""
    else if views[|views| - 1].name == SfpViewName then views[|views| - 1].id
    else SfpViewId(views[..|views| - 1])
  }

  function MemberIds(rs: seq<Relationship>): set<string>
  {
    set r | r in rs && IsMember(r) :: r.targetId
  }

  /** The categories the SFP views list as `HasMember` targets. */
  function SfpMembers(views: seq<View>): set<string>
    decreases |views|
  {
    if views == [] then {}
    else
      var v := views[|views| - 1];
      SfpMembers(views[..|views| - 1]) + (if v.name == SfpViewName then MemberIds(v.relationships) else {})
  }

  /** The first pass: `spf_id` and the keys of `spf_categories`, all mapped to "". */
  method FindSfpView(views: seq<View>) returns (spfId: string, spfCategories: map<string, string>)
    ensures spfId == SfpViewId(views)
    ensures spfCategories == map t | t in SfpMembers(views) :: ""
  {
    spfId := "";
    spfCategories := map[];
    for i := 0 to |views|
      invariant spfId == SfpViewId(views[..i])
      invariant spfCategories.Keys == SfpMembers(views[..i])
      invariant forall t | t in spfCategories :: spfCategories[t] == ""
    {
      var view := views[i];
      assert views[..i + 1][..i] == views[..i];
      if view.name == SfpViewName {
        spfId := view.id;
        var rs := view.relationships;
        for j := 0 to |rs|
          invariant spfCategories.Keys == SfpMembers(views[..i]) + MemberIds(rs[..j])
          invariant forall t | t in spfCategories :: spfCategories[t] == ""
        {
          var relationship := rs[j];
          assert rs[..j + 1] == rs[..j] + [relationship];
          if IsMember(relationship) {
            spfCategories := spfCategories[relationship.targetId := ""];
          }
        }
        assert rs[..|rs|] == rs;
      }
    }
    assert views[..|views|] == views;
  }

  /** The last view named `SfpViewName` gives `spf_id`. */
  lemma {:induction false} SfpViewIdLast(views: seq<View>, i: nat)
    requires i < |views| && views[i].name == SfpViewName
    requires forall j | i < j < |views| :: views[j].name != SfpViewName
    ensures SfpViewId(views) == views[i].id
    decreases |views|
  {
    if i < |views| - 1 {
      SfpViewIdLast(views[..|views| - 1], i);
    }
  }

  /** Without such a view `spf_id` stays "". */
  lemma {:induction false} SfpViewIdAbsent(views: seq<View>)
    requires forall j | 0 <= j < |views| :: views[j].name != SfpViewName
    ensures SfpViewId(views) == ""
    decreases |views|
  {
    if views != [] {
      SfpViewIdAbsent(views[..|views| - 1]);
    }
  }

  /** A category is a member exactly when some SFP view lists it as a `HasMember` category. */
  lemma {:induction false} SfpMembersOf(views: seq<View>, t: string)
    ensures t in SfpMembers(views) <==>
      exists i, r | 0 <= i < |views| && r in views[i].relationships ::
        views[i].name == SfpViewName && IsMember(r) && r.targetId == t
    decreases |views|
  {
    if views != [] {
      var init := views[..|views| - 1];
      SfpMembersOf(init, t);
      if t in SfpMembers(init) {
        var i, r :| 0 <= i < |init| && r in init[i].relationships && init[i].name == SfpViewName && IsMember(r) && r.targetId == t;
        assert views[i] == init[i];
      }
      if exists i, r | 0 <= i < |views| && r in views[i].relationships :: views[i].name == SfpViewName && IsMember(r) && r.targetId == t {
        var i, r :| 0 <= i < |views| && r in views[i].relationships && views[i].name == SfpViewName && IsMember(r) && r.targetId == t;
        if i < |init| {
          assert init[i] == views[i];
        }
      }
    }
  }

  // ---------------------------------------------------------------- pass 2: top-level categories

  function CategoryEntry(c: Category): CategoryInfo
  {
    CategoryInfo(CreateCategoryId(c), CreateCategoryName(c))
  }

  /** `category_map[ID] = {...}` for every category, in order. */
  function CategoryMapWrites(cats: seq<Category>): (r: seq<(string, CategoryInfo)>)
    ensures |r| == |cats|
  {
    seq(|cats|, k requires 0 <= k < |cats| => (cats[k].id, CategoryEntry(cats[k])))
  }

  /** The entry of a top-level category: its name, parent "@sfp", its ID as reference. */
  function TopThreat(c: Category): LibraryThreat
  {
    CategoryThreat(CreateCategoryName(c), SfpRoot, [c.id])
  }

  /** `spf_categories[ID] = category_id` for each member category, in order. */
  function TopSpfWrites(cats: seq<Category>, members: set<string>): seq<(string, string)>
    decreases |cats|
  {
    if cats == [] then []
    else
      var c := cats[|cats| - 1];
      TopSpfWrites(cats[..|cats| - 1], members) + (if c.id in members then [(c.id, CreateCategoryId(c))] else [])
  }

  /** `threats[category_id] = {...}` for each member category, in order. */
  function TopThreatWrites(cats: seq<Category>, members: set<string>): seq<(string, LibraryThreat)>
    decreases |cats|
  {
    if cats == [] then []
    else
      var c := cats[|cats| - 1];
      TopThreatWrites(cats[..|cats| - 1], members) + (if c.id in members then [(CreateCategoryId(c), TopThreat(c))] else [])
  }

  /** One more category in the top-level pass. */
  lemma TopCategoryStep(cats: seq<Category>, members: set<string>, spf0: map<string, string>,
                        threats0: map<string, LibraryThreat>, i: nat)
    requires i < |cats|
    ensures var c := cats[i];
            Assigned(spf0, TopSpfWrites(cats[..i + 1], members)) ==
              if c.id in members then Assigned(spf0, TopSpfWrites(cats[..i], members))[c.id := CreateCategoryId(c)]
              else Assigned(spf0, TopSpfWrites(cats[..i], members))
    ensures var c := cats[i];
            Assigned(threats0, TopThreatWrites(cats[..i + 1], members)) ==
              if c.id in members then Assigned(threats0, TopThreatWrites(cats[..i], members))[CreateCategoryId(c) := TopThreat(c)]
              else Assigned(threats0, TopThreatWrites(cats[..i], members))
  {
    var p := cats[..i + 1];
    assert p[..|p| - 1] == cats[..i];
    var c := cats[i];
    assert p != [] && p[|p| - 1] == c;
    if c.id in members {
      AssignedSnoc(spf0, TopSpfWrites(cats[..i], members), c.id, CreateCategoryId(c));
      AssignedSnoc(threats0, TopThreatWrites(cats[..i], members), CreateCategoryId(c), TopThreat(c));
    } else {
      assert TopSpfWrites(p, members) == TopSpfWrites(cats[..i], members);
      assert TopThreatWrites(p, members) == TopThreatWrites(cats[..i], members);
    }
  }

  /** The second pass: `category_map`, and the top-level categories in
      `spf_categories` and `threats`. */
  method FileTopCategories(cats: seq<Category>, spf0: map<string, string>, threats0: map<string, LibraryThreat>)
    returns (categoryMap: map<string, CategoryInfo>, spfCategories: map<string, string>, threats: map<string, LibraryThreat>)
    ensures categoryMap == Assigned(map[], CategoryMapWrites(cats))
    ensures spfCategories == Assigned(spf0, TopSpfWrites(cats, spf0.Keys))
    ensures threats == Assigned(threats0, TopThreatWrites(cats, spf0.Keys))
  {
    categoryMap, spfCategories, threats := map[], spf0, threats0;
    var mapWrites := CategoryMapWrites(cats);
    for i := 0 to |cats|
      invariant categoryMap == Assigned(map[], mapWrites[..i])
      invariant spfCategories == Assigned(spf0, TopSpfWrites(cats[..i], spf0.Keys))
      invariant threats == Assigned(threats0, TopThreatWrites(cats[..i], spf0.Keys))
      invariant spfCategories.Keys == spf0.Keys
    {
      var category := cats[i];
      var categoryId := CreateCategoryId(category);
      var categoryName := CreateCategoryName(category);
      var identifier := category.id;
      AssignedPrefix(map[], mapWrites, i);
      TopCategoryStep(cats, spf0.Keys, spf0, threats0, i);
      categoryMap := categoryMap[identifier := CategoryInfo(categoryId, categoryName)];
      if identifier in spfCategories {
        spfCategories := spfCategories[identifier := categoryId];
        threats := threats[categoryId := CategoryThreat(categoryName, SfpRoot, [identifier])];
      }
    }
    assert cats[..|cats|] == cats;
    assert mapWrites[..|cats|] == mapWrites;
  }

  lemma {:induction false} TopSpfWritesOf(cats: seq<Category>, members: set<string>, p: (string, string))
    ensures p in TopSpfWrites(cats, members) <==> exists c | c in cats && c.id in members :: p == (c.id, CreateCategoryId(c))
    decreases |cats|
  {
    if cats != [] {
      var init := cats[..|cats| - 1];
      TopSpfWritesOf(init, members, p);
      assert cats == init + [cats[|cats| - 1]];
    }
  }

  lemma {:induction false} TopThreatWritesOf(cats: seq<Category>, members: set<string>, p: (string, LibraryThreat))
    ensures p in TopThreatWrites(cats, members) <==> exists c | c in cats && c.id in members :: p == (CreateCategoryId(c), TopThreat(c))
    decreases |cats|
  {
    if cats != [] {
      var init := cats[..|cats| - 1];
      TopThreatWritesOf(init, members, p);
      assert cats == init + [cats[|cats| - 1]];
    }
  }

  /** A member category becomes a threat named after it, with parent "@sfp"
      and its ID as reference (unless another member category with the same
      id says otherwise), and `spf_categories` maps its ID to that id. */
  lemma TopCategoryFiled(cats: seq<Category>, spf0: map<string, string>, threats0: map<string, LibraryThreat>, c: Category)
    requires c in cats && c.id in spf0
    requires forall d | d in cats && d.id in spf0 && CreateCategoryId(d) == CreateCategoryId(c) :: TopThreat(d) == TopThreat(c)
    requires forall d | d in cats && d.id == c.id :: CreateCategoryId(d) == CreateCategoryId(c)
    ensures var threats := Assigned(threats0, TopThreatWrites(cats, spf0.Keys));
            && CreateCategoryId(c) in threats
            && threats[CreateCategoryId(c)] == CategoryThreat(CreateCategoryName(c), SfpRoot, [c.id])
    ensures var spf := Assigned(spf0, TopSpfWrites(cats, spf0.Keys));
            c.id in spf && spf[c.id] == CreateCategoryId(c)
  {
    var tw := TopThreatWrites(cats, spf0.Keys);
    TopThreatWritesOf(cats, spf0.Keys, (CreateCategoryId(c), TopThreat(c)));
    forall p | p in tw && p.0 == CreateCategoryId(c)
      ensures p.1 == TopThreat(c)
    {
      TopThreatWritesOf(cats, spf0.Keys, p);
    }
    AssignedAgreed(threats0, tw, CreateCategoryId(c), TopThreat(c));
    var sw := TopSpfWrites(cats, spf0.Keys);
    TopSpfWritesOf(cats, spf0.Keys, (c.id, CreateCategoryId(c)));
    forall p | p in sw && p.0 == c.id
      ensures p.1 == CreateCategoryId(c)
    {
      TopSpfWritesOf(cats, spf0.Keys, p);
    }
    AssignedAgreed(spf0, sw, c.id, CreateCategoryId(c));
  }

  /** Only member categories add threats: a key that is no member category's
      id keeps its old state. */
  lemma TopCategoriesOnly(cats: seq<Category>, spf0: map<string, string>, threats0: map<string, LibraryThreat>, k: string)
    requires forall c | c in cats && c.id in spf0 :: CreateCategoryId(c) != k
    ensures var threats := Assigned(threats0, TopThreatWrites(cats, spf0.Keys));
            (k in threats <==> k in threats0) && (k in threats0 ==> threats[k] == threats0[k])
  {
    var tw := TopThreatWrites(cats, spf0.Keys);
    forall p | p in tw
      ensures p.0 != k
    {
      TopThreatWritesOf(cats, spf0.Keys, p);
    }
    AssignedUntouched(threats0, tw, k);
  }

  // ---------------------------------------------------------------- pass 3: sub-categories

  /** A category whose single relationship lists the SFP view among its views. */
  predicate ListsView(c: Category, spfId: string)
  {
    c.links.Link? && spfId in c.links.viewIds
  }

  /** The KeyError of the two `category_map` lookups, the category's own first. */
  function LinkFailure(c: Category, categoryMap: map<string, CategoryInfo>): Option<LibraryError>
    requires c.links.Link?
  {
    if c.id !in categoryMap then Some(MissingCategory(c.id))
    else if c.links.targetId !in categoryMap then Some(MissingCategory(c.links.targetId))
    else None
  }

  predicate Filed(c: Category, spfId: string, categoryMap: map<string, CategoryInfo>)
  {
    ListsView(c, spfId) && LinkFailure(c, categoryMap).None?
  }

  /** The entry of a sub-category: its mapped name, its target's id as parent, its ID as reference. */
  function SubThreat(c: Category, categoryMap: map<string, CategoryInfo>): LibraryThreat
    requires c.links.Link? && LinkFailure(c, categoryMap).None?
  {
    CategoryThreat(categoryMap[c.id].name, categoryMap[c.links.targetId].id, [c.id])
  }

  /** The first KeyError of the pass, if any. */
  function SubFailure(cats: seq<Category>, spfId: string, categoryMap: map<string, CategoryInfo>): Option<LibraryError>
    decreases |cats|
  {
    if cats == [] then None
    else
      var c := cats[|cats| - 1];
      match SubFailure(cats[..|cats| - 1], spfId, categoryMap)
      case Some(e) => Some(e)
      case None => if ListsView(c, spfId) then LinkFailure(c, categoryMap) else None
  }

  function SubSpfWrites(cats: seq<Category>, spfId: string, categoryMap: map<string, CategoryInfo>): seq<(string, string)>
    decreases |cats|
  {
    if cats == [] then []
    else
      var c := cats[|cats| - 1];
      SubSpfWrites(cats[..|cats| - 1], spfId, categoryMap)
        + (if Filed(c, spfId, categoryMap) then [(c.id, categoryMap[c.id].id)] else [])
  }

  function SubThreatWrites(cats: seq<Category>, spfId: string, categoryMap: map<string, CategoryInfo>): seq<(string, LibraryThreat)>
    decreases |cats|
  {
    if cats == [] then []
    else
      var c := cats[|cats| - 1];
      SubThreatWrites(cats[..|cats| - 1], spfId, categoryMap)
        + (if Filed(c, spfId, categoryMap) then [(categoryMap[c.id].id, SubThreat(c, categoryMap))] else [])
  }

  /** The outcome of the sub-category pass: the first KeyError, or the updated
      `spf_categories` and `threats`. */
  function SubCategories(cats: seq<Category>, spfId: string, categoryMap: map<string, CategoryInfo>,
                         spf: map<string, string>, threats: map<string, LibraryThreat>)
    : Result<(map<string, string>, map<string, LibraryThreat>), LibraryError>
  {
    match SubFailure(cats, spfId, categoryMap)
    case Some(e) => Failure(e)
    case None => Success((Assigned(spf, SubSpfWrites(cats, spfId, categoryMap)),
                          Assigned(threats, SubThreatWrites(cats, spfId, categoryMap))))
  }

  /** One category of the sub-category pass: every view id equal to `spf_id`
      files it under its target (the same assignments each time). */
  method FileSubCategory(category: Category, spfId: string, categoryMap: map<string, CategoryInfo>,
                         spf0: map<string, string>, threats0: map<string, LibraryThreat>)
    returns (r: Result<(map<string, string>, map<string, LibraryThreat>), LibraryError>)
    ensures ListsView(category, spfId) && LinkFailure(category, categoryMap).Some? ==>
              r == Failure(LinkFailure(category, categoryMap).value)
    ensures Filed(category, spfId, categoryMap) ==>
              r == Success((spf0[category.id := categoryMap[category.id].id],
                            threats0[categoryMap[category.id].id := SubThreat(category, categoryMap)]))
    ensures !ListsView(category, spfId) ==> r == Success((spf0, threats0))
  {
    var spf, threats := spf0, threats0;
    if !category.links.Link? {
      return Success((spf, threats));
    }
    var views := category.links.viewIds;
    for j := 0 to |views|
      invariant spfId in views[..j] ==> Filed(category, spfId, categoryMap)
      invariant spfId in views[..j] ==>
        spf == spf0[category.id := categoryMap[category.id].id] &&
        threats == threats0[categoryMap[category.id].id := SubThreat(category, categoryMap)]
      invariant spfId !in views[..j] ==> spf == spf0 && threats == threats0
    {
      assert views[..j + 1] == views[..j] + [views[j]];
      if views[j] == spfId {
        var identifier := category.id;
        if identifier !in categoryMap {
          return Failure(MissingCategory(identifier));
        }
        var categoryId := categoryMap[identifier].id;
        var categoryName := categoryMap[identifier].name;
        var parentIdentifier := category.links.targetId;
        if parentIdentifier !in categoryMap {
          return Failure(MissingCategory(parentIdentifier));
        }
        var parentId := categoryMap[parentIdentifier].id;
        spf := spf[identifier := categoryId];
        threats := threats[categoryId := CategoryThreat(categoryName, parentId, [identifier])];
      }
    }
    assert views[..|views|] == views;
    return Success((spf, threats));
  }

  /** Once the pass has failed, later categories do not change the outcome. */
  lemma {:induction false} SubFailureStopped(cats: seq<Category>, spfId: string, categoryMap: map<string, CategoryInfo>, i: nat)
    requires i <= |cats| && SubFailure(cats[..i], spfId, categoryMap).Some?
    ensures SubFailure(cats, spfId, categoryMap) == SubFailure(cats[..i], spfId, categoryMap)
    decreases |cats| - i
  {
    if i < |cats| {
      var init := cats[..|cats| - 1];
      assert init[..i] == cats[..i];
      SubFailureStopped(init, spfId, categoryMap, i);
    } else {
      assert cats[..i] == cats;
    }
  }

  /** One more category in the sub-category pass. */
  lemma SubCategoryStep(cats: seq<Category>, spfId: string, categoryMap: map<string, CategoryInfo>,
                        spf0: map<string, string>, threats0: map<string, LibraryThreat>, i: nat)
    requires i < |cats|
    ensures var c := cats[i];
            SubFailure(cats[..i + 1], spfId, categoryMap) ==
              if SubFailure(cats[..i], spfId, categoryMap).Some? then SubFailure(cats[..i], spfId, categoryMap)
              else if ListsView(c, spfId) then LinkFailure(c, categoryMap) else None
    ensures var c := cats[i];
            Assigned(spf0, SubSpfWrites(cats[..i + 1], spfId, categoryMap)) ==
              if Filed(c, spfId, categoryMap)
              then Assigned(spf0, SubSpfWrites(cats[..i], spfId, categoryMap))[c.id := categoryMap[c.id].id]
              else Assigned(spf0, SubSpfWrites(cats[..i], spfId, categoryMap))
    ensures var c := cats[i];
            Assigned(threats0, SubThreatWrites(cats[..i + 1], spfId, categoryMap)) ==
              if Filed(c, spfId, categoryMap)
              then Assigned(threats0, SubThreatWrites(cats[..i], spfId, categoryMap))[categoryMap[c.id].id := SubThreat(c, categoryMap)]
              else Assigned(threats0, SubThreatWrites(cats[..i], spfId, categoryMap))
  {
    var p := cats[..i + 1];
    assert p[..|p| - 1] == cats[..i];
    var c := cats[i];
    assert p != [] && p[|p| - 1] == c;
    if Filed(c, spfId, categoryMap) {
      AssignedSnoc(spf0, SubSpfWrites(cats[..i], spfId, categoryMap), c.id, categoryMap[c.id].id);
      AssignedSnoc(threats0, SubThreatWrites(cats[..i], spfId, categoryMap), categoryMap[c.id].id, SubThreat(c, categoryMap));
    } else {
      assert SubSpfWrites(p, spfId, categoryMap) == SubSpfWrites(cats[..i], spfId, categoryMap);
      assert SubThreatWrites(p, spfId, categoryMap) == SubThreatWrites(cats[..i], spfId, categoryMap);
    }
  }

  /** The third pass: the sub-categories filed under the SFP view. */
  method FileSubCategories(cats: seq<Category>, spfId: string, categoryMap: map<string, CategoryInfo>,
                           spf0: map<string, string>, threats0: map<string, LibraryThreat>)
    returns (r: Result<(map<string, string>, map<string, LibraryThreat>), LibraryError>)
    ensures r == SubCategories(cats, spfId, categoryMap, spf0, threats0)
  {
    var spf, threats := spf0, threats0;
    for i := 0 to |cats|
      invariant SubFailure(cats[..i], spfId, categoryMap).None?
      invariant spf == Assigned(spf0, SubSpfWrites(cats[..i], spfId, categoryMap))
      invariant threats == Assigned(threats0, SubThreatWrites(cats[..i], spfId, categoryMap))
    {
      var category := cats[i];
      SubCategoryStep(cats, spfId, categoryMap, spf0, threats0, i);
      var step := FileSubCategory(category, spfId, categoryMap, spf, threats);
      if step.Failure? {
        SubFailureStopped(cats, spfId, categoryMap, i + 1);
        return Failure(step.error);
      }
      spf, threats := step.value.0, step.value.1;
    }
    assert cats[..|cats|] == cats;
    return Success((spf, threats));
  }

  lemma {:induction false} SubFailureOf(cats: seq<Category>, spfId: string, categoryMap: map<string, CategoryInfo>)
    ensures SubFailure(cats, spfId, categoryMap).None? <==>
      forall c | c in cats && ListsView(c, spfId) :: LinkFailure(c, categoryMap).None?
    decreases |cats|
  {
    if cats != [] {
      var init := cats[..|cats| - 1];
      SubFailureOf(init, spfId, categoryMap);
      assert cats == init + [cats[|cats| - 1]];
    }
  }

  lemma {:induction false} SubSpfWritesOf(cats: seq<Category>, spfId: string, categoryMap: map<string, CategoryInfo>, p: (string, string))
    ensures p in SubSpfWrites(cats, spfId, categoryMap) <==>
      exists c | c in cats && Filed(c, spfId, categoryMap) :: p == (c.id, categoryMap[c.id].id)
    decreases |cats|
  {
    if cats != [] {
      var init := cats[..|cats| - 1];
      SubSpfWritesOf(init, spfId, categoryMap, p);
      assert cats == init + [cats[|cats| - 1]];
    }
  }

  lemma {:induction false} SubThreatWritesOf(cats: seq<Category>, spfId: string, categoryMap: map<string, CategoryInfo>, p: (string, LibraryThreat))
    ensures p in SubThreatWrites(cats, spfId, categoryMap) <==>
      exists c | c in cats && Filed(c, spfId, categoryMap) :: p == (categoryMap[c.id].id, SubThreat(c, categoryMap))
    decreases |cats|
  {
    if cats != [] {
      var init := cats[..|cats| - 1];
      SubThreatWritesOf(init, spfId, categoryMap, p);
      assert cats == init + [cats[|cats| - 1]];
    }
  }

  /** The pass fails exactly when a category listing the SFP view names a
      category (itself or its target) that `category_map` lacks. */
  lemma SubCategoriesFail(cats: seq<Category>, spfId: string, categoryMap: map<string, CategoryInfo>,
                          spf: map<string, string>, threats: map<string, LibraryThreat>)
    ensures SubCategories(cats, spfId, categoryMap, spf, threats).Failure? <==>
      exists c | c in cats && ListsView(c, spfId) :: c.id !in categoryMap || c.links.targetId !in categoryMap
  {
    SubFailureOf(cats, spfId, categoryMap);
  }

  /** A sub-category whose single relationship lists the SFP view is filed in
      `spf_categories` under its mapped id and, unless another such category
      with the same id says otherwise, becomes a threat whose parent is the
      mapped id of its target. */
  lemma SubCategoryFiled(cats: seq<Category>, spfId: string, categoryMap: map<string, CategoryInfo>,
                         spf0: map<string, string>, threats0: map<string, LibraryThreat>, c: Category)
    requires SubCategories(cats, spfId, categoryMap, spf0, threats0).Success?
    requires c in cats && Filed(c, spfId, categoryMap)
    requires forall d | d in cats && Filed(d, spfId, categoryMap) && categoryMap[d.id].id == categoryMap[c.id].id ::
               SubThreat(d, categoryMap) == SubThreat(c, categoryMap)
    ensures var (spf, threats) := SubCategories(cats, spfId, categoryMap, spf0, threats0).value;
            && c.id in spf && spf[c.id] == categoryMap[c.id].id
            && categoryMap[c.id].id in threats
            && threats[categoryMap[c.id].id] ==
                 CategoryThreat(categoryMap[c.id].name, categoryMap[c.links.targetId].id, [c.id])
  {
    SubFailureOf(cats, spfId, categoryMap);
    var sw := SubSpfWrites(cats, spfId, categoryMap);
    SubSpfWritesOf(cats, spfId, categoryMap, (c.id, categoryMap[c.id].id));
    forall p | p in sw && p.0 == c.id
      ensures p.1 == categoryMap[c.id].id
    {
      SubSpfWritesOf(cats, spfId, categoryMap, p);
    }
    AssignedAgreed(spf0, sw, c.id, categoryMap[c.id].id);
    var tw := SubThreatWrites(cats, spfId, categoryMap);
    var key := categoryMap[c.id].id;
    SubThreatWritesOf(cats, spfId, categoryMap, (key, SubThreat(c, categoryMap)));
    forall p | p in tw && p.0 == key
      ensures p.1 == SubThreat(c, categoryMap)
    {
      SubThreatWritesOf(cats, spfId, categoryMap, p);
    }
    AssignedAgreed(threats0, tw, key, SubThreat(c, categoryMap));
  }

  /** Categories without a single relationship listing the SFP view add
      nothing: a key that no listing category maps to keeps its old state. */
  lemma SubCategoriesOnly(cats: seq<Category>, spfId: string, categoryMap: map<string, CategoryInfo>,
                          spf0: map<string, string>, threats0: map<string, LibraryThreat>, k: string)
    requires SubCategories(cats, spfId, categoryMap, spf0, threats0).Success?
    requires forall c | c in cats && ListsView(c, spfId) && c.id in categoryMap :: categoryMap[c.id].id != k
    ensures var threats := SubCategories(cats, spfId, categoryMap, spf0, threats0).value.1;
            (k in threats <==> k in threats0) && (k in threats0 ==> threats[k] == threats0[k])
  {
    var tw := SubThreatWrites(cats, spfId, categoryMap);
    forall p | p in tw
      ensures p.0 != k
    {
      SubThreatWritesOf(cats, spfId, categoryMap, p);
    }
    AssignedUntouched(threats0, tw, k);
  }

  // ---------------------------------------------------------------- pass 4: weaknesses

  /** A `ChildOf` relationship to a category `spf_categories` knows. */
  predicate ChildOfSfp(r: Relationship, spf: map<string, string>)
  {
    r.targetForm == "Category" && r.nature == "ChildOf" && r.targetId in spf
  }

  /** The `spf_categories` value of the first `ChildOf` relationship to a known
      category; "" when there is none. */
  function FirstSfpParent(rs: seq<Relationship>, spf: map<string, string>): string
  {
    if rs == [] then ""
    else if ChildOfSfp(rs[0], spf) then spf[rs[0].targetId]
    else FirstSfpParent(rs[1..], spf)
  }

  /** The parent as written: a single relationship is a dictionary, iterating
      it yields its keys, which are strings and never pass the dictionary test,
      so a weakness with exactly one relationship gets no parent. */
  function SfpParentAsWritten(rels: Relationships, spf: map<string, string>): string
  {
    match rels
    case NoRelationships => ""
    case One(_) => ""
    case Many(rs) => FirstSfpParent(rs, spf)
  }

  /** The relationships of a weakness as a list, one relationship being a list of one. */
  function RelationshipList(rels: Relationships): seq<Relationship>
  {
    match rels
    case NoRelationships => []
    case One(r) => [r]
    case Many(rs) => rs
  }

  /** The parent as intended: the first qualifying relationship, however many there are. */
  function SfpParent(rels: Relationships, spf: map<string, string>): string
  {
    FirstSfpParent(RelationshipList(rels), spf)
  }

  /** The first `ChildOf` relationship to a known category decides the parent,
      even when later ones name other categories. */
  lemma {:induction false} FirstSfpParentAt(rs: seq<Relationship>, spf: map<string, string>, k: nat)
    requires k < |rs| && ChildOfSfp(rs[k], spf)
    requires forall j | 0 <= j < k :: !ChildOfSfp(rs[j], spf)
    ensures FirstSfpParent(rs, spf) == spf[rs[k].targetId]
    decreases k
  {
    if k > 0 {
      FirstSfpParentAt(rs[1..], spf, k - 1);
    }
  }

  /** Without a qualifying relationship there is no parent. */
  lemma {:induction false} FirstSfpParentNone(rs: seq<Relationship>, spf: map<string, string>)
    requires forall j | 0 <= j < |rs| :: !ChildOfSfp(rs[j], spf)
    ensures FirstSfpParent(rs, spf) == ""
    decreases |rs|
  {
    if rs != [] {
      FirstSfpParentNone(rs[1..], spf);
    }
  }

  /** The intended parent: a weakness is filed under the category of its
      first qualifying relationship, whether it has one relationship or several. */
  lemma SfpParentFirst(rels: Relationships, spf: map<string, string>, k: nat)
    requires k < |RelationshipList(rels)| && ChildOfSfp(RelationshipList(rels)[k], spf)
    requires forall j | 0 <= j < k :: !ChildOfSfp(RelationshipList(rels)[j], spf)
    ensures SfpParent(rels, spf) == spf[RelationshipList(rels)[k].targetId]
  {
    FirstSfpParentAt(RelationshipList(rels), spf, k);
  }

  /** As written and as intended agree except on a single relationship. */
  lemma SfpParentAgrees(rels: Relationships, spf: map<string, string>)
    requires !rels.One?
    ensures SfpParentAsWritten(rels, spf) == SfpParent(rels, spf)
  {
  }

  /** A weakness whose only relationship is `ChildOf` a known SFP category is
      dropped as written, and filed under that category as intended. */
  lemma SingleRelationshipDropped()
    ensures var spf := map["888" := "@faulty_buffer_access"];
            var rels := One(Relationship("Category", "ChildOf", "888"));
            SfpParentAsWritten(rels, spf) == "" && SfpParent(rels, spf) == "@faulty_buffer_access"
  {
    var spf := map["888" := "@faulty_buffer_access"];
    var rels := One(Relationship("Category", "ChildOf", "888"));
    assert ChildOfSfp(RelationshipList(rels)[0], spf);
  }

  /** The relationship loop of the weakness pass: the first qualifying
      relationship ends the search. */
  method FindSfpParent(rels: Relationships, spf: map<string, string>) returns (parent: string)
    ensures parent == SfpParent(rels, spf)
  {
    var rs := RelationshipList(rels);
    var i := 0;
    while i < |rs| && !ChildOfSfp(rs[i], spf)
      invariant 0 <= i <= |rs|
      invariant forall j | 0 <= j < i :: !ChildOfSfp(rs[j], spf)
    {
      i := i + 1;
    }
    if i < |rs| {
      parent := spf[rs[i].targetId];
      FirstSfpParentAt(rs, spf, i);
    } else {
      parent := "";
      FirstSfpParentNone(rs, spf);
    }
  }

  /** The entry of a weakness filed under `parent`. */
  function SfpEntry(w: Weakness, parent: string): LibraryThreat
  {
    WeaknessThreat(CreateName(w), CreateDescription(w.description), CreateRefs(w.id), Some(parent))
  }

  /** `threats[create_id(cwe)] = {...}` for each weakness with a parent, in order. */
  function WeaknessWrites(ws: seq<Weakness>, spf: map<string, string>): seq<(string, LibraryThreat)>
    decreases |ws|
  {
    if ws == [] then []
    else
      var w := ws[|ws| - 1];
      var parent := SfpParent(w.relationships, spf);
      WeaknessWrites(ws[..|ws| - 1], spf) + (if parent != "" then [(CreateId(w), SfpEntry(w, parent))] else [])
  }

  /** One more weakness in the weakness pass. */
  lemma WeaknessStep(ws: seq<Weakness>, spf: map<string, string>, threats0: map<string, LibraryThreat>, i: nat)
    requires i < |ws|
    ensures var w := ws[i];
            var parent := SfpParent(w.relationships, spf);
            Assigned(threats0, WeaknessWrites(ws[..i + 1], spf)) ==
              if parent != "" then Assigned(threats0, WeaknessWrites(ws[..i], spf))[CreateId(w) := SfpEntry(w, parent)]
              else Assigned(threats0, WeaknessWrites(ws[..i], spf))
  {
    var p := ws[..i + 1];
    assert p[..|p| - 1] == ws[..i];
    var w := ws[i];
    assert p != [] && p[|p| - 1] == w;
    var parent := SfpParent(w.relationships, spf);
    if parent != "" {
      AssignedSnoc(threats0, WeaknessWrites(ws[..i], spf), CreateId(w), SfpEntry(w, parent));
    } else {
      assert WeaknessWrites(p, spf) == WeaknessWrites(ws[..i], spf);
    }
  }

  /** The last pass: each weakness with an SFP parent becomes a threat. */
  method FileWeaknesses(ws: seq<Weakness>, spf: map<string, string>, threats0: map<string, LibraryThreat>)
    returns (threats: map<string, LibraryThreat>)
    ensures threats == Assigned(threats0, WeaknessWrites(ws, spf))
  {
    threats := threats0;
    for i := 0 to |ws|
      invariant threats == Assigned(threats0, WeaknessWrites(ws[..i], spf))
    {
      var cwe := ws[i];
      WeaknessStep(ws, spf, threats0, i);
      var sfpCategoryId := FindSfpParent(cwe.relationships, spf);
      if sfpCategoryId == "" {
        continue;
      }
      var identifier := CreateId(cwe);
      var name := CreateName(cwe);
      var desc := CreateDescription(cwe.description);
      var refs := CreateRefs(cwe.id);
      var parent := sfpCategoryId;
      threats := threats[identifier := WeaknessThreat(name, desc, refs, Some(parent))];
    }
    assert ws[..|ws|] == ws;
  }

  lemma {:induction false} WeaknessWritesOf(ws: seq<Weakness>, spf: map<string, string>, p: (string, LibraryThreat))
    ensures p in WeaknessWrites(ws, spf) <==>
      exists w | w in ws && SfpParent(w.relationships, spf) != "" ::
        p == (CreateId(w), SfpEntry(w, SfpParent(w.relationships, spf)))
    decreases |ws|
  {
    if ws != [] {
      var init := ws[..|ws| - 1];
      WeaknessWritesOf(init, spf, p);
      assert ws == init + [ws[|ws| - 1]];
    }
  }

  /** A weakness with an SFP parent becomes a threat holding its name,
      description, references and that parent (unless another weakness with
      the same id says otherwise). */
  lemma WeaknessFiled(ws: seq<Weakness>, spf: map<string, string>, threats0: map<string, LibraryThreat>, w: Weakness)
    requires w in ws && SfpParent(w.relationships, spf) != ""
    requires forall v | v in ws && SfpParent(v.relationships, spf) != "" && CreateId(v) == CreateId(w) ::
               SfpEntry(v, SfpParent(v.relationships, spf)) == SfpEntry(w, SfpParent(w.relationships, spf))
    ensures var threats := Assigned(threats0, WeaknessWrites(ws, spf));
            && CreateId(w) in threats
            && threats[CreateId(w)] == WeaknessThreat(w.name, CreateDescription(w.description), CreateRefs(w.id),
                                                      Some(SfpParent(w.relationships, spf)))
  {
    var ww := WeaknessWrites(ws, spf);
    var e := SfpEntry(w, SfpParent(w.relationships, spf));
    WeaknessWritesOf(ws, spf, (CreateId(w), e));
    forall p | p in ww && p.0 == CreateId(w)
      ensures p.1 == e
    {
      WeaknessWritesOf(ws, spf, p);
    }
    AssignedAgreed(threats0, ww, CreateId(w), e);
  }

  /** A weakness without an SFP parent adds nothing: a key that no weakness
      with a parent maps to keeps its old state. */
  lemma WeaknessesOnly(ws: seq<Weakness>, spf: map<string, string>, threats0: map<string, LibraryThreat>, k: string)
    requires forall w | w in ws && SfpParent(w.relationships, spf) != "" :: CreateId(w) != k
    ensures var threats := Assigned(threats0, WeaknessWrites(ws, spf));
            (k in threats <==> k in threats0) && (k in threats0 ==> threats[k] == threats0[k])
  {
    var ww := WeaknessWrites(ws, spf);
    forall p | p in ww
      ensures p.0 != k
    {
      WeaknessWritesOf(ws, spf, p);
    }
    AssignedUntouched(threats0, ww, k);
  }

  // ---------------------------------------------------------------- the library

  /** The whole conversion: the four passes in order, ending at the first KeyError. */
  function SfpLibrary(views: seq<View>, cats: seq<Category>, ws: seq<Weakness>): Result<map<string, LibraryThreat>, LibraryError>
  {
    var spfId := SfpViewId(views);
    var spf1 := map t | t in SfpMembers(views) :: "";
    var categoryMap := Assigned(map[], CategoryMapWrites(cats));
    var spf2 := Assigned(spf1, TopSpfWrites(cats, spf1.Keys));
    var threats2 := Assigned(map[], TopThreatWrites(cats, spf1.Keys));
    match SubCategories(cats, spfId, categoryMap, spf2, threats2)
    case Failure(e) => Failure(e)
    case Success((spf3, threats3)) => Success(Assigned(threats3, WeaknessWrites(ws, spf3)))
  }

  /** cwe_sfp_to_threatspec.py from the parsed catalogue to the `threats` map. */
  method BuildSfpLibrary(views: seq<View>, cats: seq<Category>, ws: seq<Weakness>)
    returns (r: Result<map<string, LibraryThreat>, LibraryError>)
    ensures r == SfpLibrary(views, cats, ws)
  {
    var spfId, spfCategories := FindSfpView(views);
    var categoryMap, spf2, threats2 := FileTopCategories(cats, spfCategories, map[]);
    var sub := FileSubCategories(cats, spfId, categoryMap, spf2, threats2);
    if sub.Failure? {
      return Failure(sub.error);
    }
    var threats := FileWeaknesses(ws, sub.value.0, sub.value.1);
    return Success(threats);
  }

  // ---------------------------------------------------------------- parents

  /** `spf_categories` values: "" (a member not yet seen) or a category id. */
  predicate SpfRefs(spf: map<string, string>)
  {
    forall v | v in spf.Values :: v == "" || IsIdentifier(v)
  }

  /** Every `category_map` id is an `@`-reference. */
  predicate MapRefs(categoryMap: map<string, CategoryInfo>)
  {
    forall info | info in categoryMap.Values :: IsIdentifier(info.id)
  }

  /** Every entry is a category whose parent is an `@`-reference. */
  predicate CategoryRefs(threats: map<string, LibraryThreat>)
  {
    forall t | t in threats.Values :: t.CategoryThreat? && IsIdentifier(t.parentId)
  }

  /** Every entry has a parent, and it is an `@`-reference. */
  predicate ParentRefs(threats: map<string, LibraryThreat>)
  {
    forall t | t in threats.Values ::
      if t.CategoryThreat? then IsIdentifier(t.parentId) else t.parent.Some? && IsIdentifier(t.parent.value)
  }

  lemma CategoryMapRefs(cats: seq<Category>)
    ensures MapRefs(Assigned(map[], CategoryMapWrites(cats)))
  {
    AssignedValues(map[], CategoryMapWrites(cats));
  }

  lemma TopRefs(cats: seq<Category>, spf1: map<string, string>)
    requires SpfRefs(spf1)
    ensures SpfRefs(Assigned(spf1, TopSpfWrites(cats, spf1.Keys)))
    ensures CategoryRefs(Assigned(map[], TopThreatWrites(cats, spf1.Keys)))
  {
    var sw := TopSpfWrites(cats, spf1.Keys);
    AssignedValues(spf1, sw);
    forall p | p in sw
      ensures IsIdentifier(p.1)
    {
      TopSpfWritesOf(cats, spf1.Keys, p);
    }
    var tw := TopThreatWrites(cats, spf1.Keys);
    AssignedValues(map[], tw);
    forall p | p in tw
      ensures p.1.CategoryThreat? && p.1.parentId == SfpRoot
    {
      TopThreatWritesOf(cats, spf1.Keys, p);
    }
  }

  lemma SubRefs(cats: seq<Category>, spfId: string, categoryMap: map<string, CategoryInfo>,
                spf2: map<string, string>, threats2: map<string, LibraryThreat>)
    requires MapRefs(categoryMap) && SpfRefs(spf2) && CategoryRefs(threats2)
    ensures SpfRefs(Assigned(spf2, SubSpfWrites(cats, spfId, categoryMap)))
    ensures CategoryRefs(Assigned(threats2, SubThreatWrites(cats, spfId, categoryMap)))
  {
    var sw := SubSpfWrites(cats, spfId, categoryMap);
    AssignedValues(spf2, sw);
    forall p | p in sw
      ensures IsIdentifier(p.1)
    {
      SubSpfWritesOf(cats, spfId, categoryMap, p);
      var c :| c in cats && Filed(c, spfId, categoryMap) && p == (c.id, categoryMap[c.id].id);
      assert categoryMap[c.id] in categoryMap.Values;
    }
    var tw := SubThreatWrites(cats, spfId, categoryMap);
    AssignedValues(threats2, tw);
    forall p | p in tw
      ensures p.1.CategoryThreat? && IsIdentifier(p.1.parentId)
    {
      SubThreatWritesOf(cats, spfId, categoryMap, p);
      var c :| c in cats && Filed(c, spfId, categoryMap) && p == (categoryMap[c.id].id, SubThreat(c, categoryMap));
      assert categoryMap[c.links.targetId] in categoryMap.Values;
    }
  }

  /** The parent a weakness gets is "" or an `spf_categories` value. */
  lemma {:induction false} FirstSfpParentValue(rs: seq<Relationship>, spf: map<string, string>)
    ensures FirstSfpParent(rs, spf) == "" || FirstSfpParent(rs, spf) in spf.Values
    decreases |rs|
  {
    if rs != [] && !ChildOfSfp(rs[0], spf) {
      FirstSfpParentValue(rs[1..], spf);
    }
  }

  lemma WeaknessRefs(ws: seq<Weakness>, spf: map<string, string>, threats: map<string, LibraryThreat>)
    requires SpfRefs(spf) && CategoryRefs(threats)
    ensures ParentRefs(Assigned(threats, WeaknessWrites(ws, spf)))
  {
    var ww := WeaknessWrites(ws, spf);
    AssignedValues(threats, ww);
    forall p | p in ww
      ensures p.1.WeaknessThreat? && p.1.parent.Some? && IsIdentifier(p.1.parent.value)
    {
      WeaknessWritesOf(ws, spf, p);
      var w :| w in ws && SfpParent(w.relationships, spf) != "" && p == (CreateId(w), SfpEntry(w, SfpParent(w.relationships, spf)));
      FirstSfpParentValue(RelationshipList(w.relationships), spf);
    }
  }

  /** In the SFP library every entry has a parent and every parent is an
      `@`-reference: "@sfp" for a top-level category, the id of a category
      otherwise. */
  lemma LibraryParents(views: seq<View>, cats: seq<Category>, ws: seq<Weakness>)
    requires SfpLibrary(views, cats, ws).Success?
    ensures ParentRefs(SfpLibrary(views, cats, ws).value)
  {
    var spfId := SfpViewId(views);
    var spf1 := map t | t in SfpMembers(views) :: "";
    var categoryMap := Assigned(map[], CategoryMapWrites(cats));
    var spf2 := Assigned(spf1, TopSpfWrites(cats, spf1.Keys));
    var threats2 := Assigned(map[], TopThreatWrites(cats, spf1.Keys));
    CategoryMapRefs(cats);
    TopRefs(cats, spf1);
    SubRefs(cats, spfId, categoryMap, spf2, threats2);
    var sub := SubCategories(cats, spfId, categoryMap, spf2, threats2);
    WeaknessRefs(ws, sub.value.0, sub.value.1);
  }

  /** The conversion fails exactly when a category whose single relationship
      lists the SFP view names a category (itself or its target) that the
      catalogue lacks. */
  lemma LibraryFails(views: seq<View>, cats: seq<Category>, ws: seq<Weakness>)
    ensures SfpLibrary(views, cats, ws).Failure? <==>
      exists c | c in cats && ListsView(c, SfpViewId(views)) ::
        c.id !in Assigned(map[], CategoryMapWrites(cats)) || c.links.targetId !in Assigned(map[], CategoryMapWrites(cats))
  {
    var spf1 := map t | t in SfpMembers(views) :: "";
    SubCategoriesFail(cats, SfpViewId(views), Assigned(map[], CategoryMapWrites(cats)),
                      Assigned(spf1, TopSpfWrites(cats, spf1.Keys)), Assigned(map[], TopThreatWrites(cats, spf1.Keys)));
  }
}
