/** The category handlers' rules: names are trimmed and must not be blank, a category still
    holding products cannot be deleted, and the list is sorted by name with a product count. */
module CategoryRules {
  import opened Common
  import opened Entities

  /** The characters `String.prototype.trim` removes: ECMAScript white space and line terminators. */
  const Whitespace: set<char> := {
    '\t', '\n', '\U{0B}', '\U{0C}', '\r', ' ', '\U{A0}', '\U{1680}',
    '\U{2000}', '\U{2001}', '\U{2002}', '\U{2003}', '\U{2004}', '\U{2005}', '\U{2006}',
    '\U{2007}', '\U{2008}', '\U{2009}', '\U{200A}',
    '\U{2028}', '\U{2029}', '\U{202F}', '\U{205F}', '\U{3000}', '\U{FEFF}'
  }

  /* Trimming is defined for any set `ws` of characters to cut; `s.trim()` is the instance with
     `Whitespace`. Nothing below depends on which characters `Whitespace` holds. */

  /** Every character of `s` is in `ws`. */
  predicate AllIn(s: string, ws: set<char>)
  {
    forall i :: 0 <= i < |s| ==> s[i] in ws
  }

  /** The leading run of characters in `ws` removed. */
  function TrimStart(s: string, ws: set<char>): (r: string)
    ensures |r| <= |s| && r == s[|s| - |r|..]
    ensures AllIn(s[..|s| - |r|], ws)
    ensures r == [] || r[0] !in ws
  {
    if s != [] && s[0] in ws then
      var r := TrimStart(s[1..], ws);
      assert s[..|s| - |r|] == [s[0]] + s[1..][..|s| - 1 - |r|];
      AllInAppend([s[0]], s[1..][..|s| - 1 - |r|], ws);
      r
    else s
  }

  /** The trailing run of characters in `ws` removed. */
  function TrimEnd(s: string, ws: set<char>): (r: string)
    ensures |r| <= |s| && r == s[..|r|]
    ensures AllIn(s[|r|..], ws)
    ensures r == [] || r[|r| - 1] !in ws
  {
    if s != [] && s[|s| - 1] in ws then
      var r := TrimEnd(s[..|s| - 1], ws);
      assert s[|r|..] == s[..|s| - 1][|r|..] + [s[|s| - 1]];
      AllInAppend(s[..|s| - 1][|r|..], [s[|s| - 1]], ws);
      r
    else s
  }

  /** Both runs removed. */
  function TrimWith(s: string, ws: set<char>): string
  {
    TrimStart(TrimEnd(s, ws), ws)
  }

  /** `s.trim()`. */
  function Trim(s: string): string
  {
    TrimWith(s, Whitespace)
  }

  /** `s` is made only of white space. */
  predicate AllWhitespace(s: string)
  {
    AllIn(s, Whitespace)
  }

  /** The trimmed string is the piece of `s` that starts after the leading run: only characters
      of `ws` are cut off either end, and none is left at either end. */
  lemma TrimShape(s: string, ws: set<char>)
    ensures var i := |TrimEnd(s, ws)| - |TrimWith(s, ws)|;
      && 0 <= i <= |s| - |TrimWith(s, ws)| && TrimWith(s, ws) == s[i..i + |TrimWith(s, ws)|]
      && AllIn(s[..i], ws) && AllIn(s[i + |TrimWith(s, ws)|..], ws)
    ensures TrimWith(s, ws) == [] || (TrimWith(s, ws)[0] !in ws && TrimWith(s, ws)[|TrimWith(s, ws)| - 1] !in ws)
  {
    TrimIsSlice(s, ws);
    TrimCutsOnlyWs(s, ws);
    TrimEnds(s, ws);
  }

  lemma TrimIsSlice(s: string, ws: set<char>)
    ensures var i := |TrimEnd(s, ws)| - |TrimWith(s, ws)|;
      0 <= i <= |s| - |TrimWith(s, ws)| && TrimWith(s, ws) == s[i..i + |TrimWith(s, ws)|]
  {
    var t := TrimEnd(s, ws);
    var r := TrimStart(t, ws);
    var i := |t| - |r|;
    assert r == t[i..];
  }

  lemma TrimCutsOnlyWs(s: string, ws: set<char>)
    ensures var i := |TrimEnd(s, ws)| - |TrimWith(s, ws)|;
      0 <= i <= |s| - |TrimWith(s, ws)| && AllIn(s[..i], ws) && AllIn(s[i + |TrimWith(s, ws)|..], ws)
  {
    var t := TrimEnd(s, ws);
    var r := TrimStart(t, ws);
    var i := |t| - |r|;
    assert AllIn(t[..i], ws) && AllIn(s[|t|..], ws);
    assert s[..i] == t[..i];
    assert s[i + |r|..] == s[|t|..];
  }

  lemma TrimEnds(s: string, ws: set<char>)
    ensures TrimWith(s, ws) == [] || (TrimWith(s, ws)[0] !in ws && TrimWith(s, ws)[|TrimWith(s, ws)| - 1] !in ws)
  {
    var t := TrimEnd(s, ws);
    var r := TrimStart(t, ws);
    if r != [] {
      assert r == t[|t| - |r|..];
      assert r[|r| - 1] == t[|t| - 1];
    }
  }

  /** Trimming twice is trimming once. */
  lemma TrimIdempotent(s: string, ws: set<char>)
    ensures TrimWith(TrimWith(s, ws), ws) == TrimWith(s, ws)
  {
    TrimEnds(s, ws);
    var r := TrimWith(s, ws);
    if r != [] {
      assert TrimEnd(r, ws) == r;
      assert TrimStart(r, ws) == r;
    }
  }

  /** `name.trim() === ""` holds exactly for strings made only of characters that are cut. */
  lemma TrimEmptyIffBlank(s: string, ws: set<char>)
    ensures TrimWith(s, ws) == [] <==> AllIn(s, ws)
  {
    if TrimWith(s, ws) == [] {
      EmptyTrimIsBlank(s, ws);
    }
    if AllIn(s, ws) {
      BlankTrimsToEmpty(s, ws);
    }
  }

  /** A string that trims to "" is cut entirely: both removed runs consist of characters of `ws`. */
  lemma EmptyTrimIsBlank(s: string, ws: set<char>)
    requires TrimWith(s, ws) == []
    ensures AllIn(s, ws)
  {
    var t := TrimEnd(s, ws);
    assert t[..|t|] == t;
    assert s == t + s[|t|..];
    AllInAppend(t, s[|t|..], ws);
  }

  lemma {:induction false} BlankTrimsToEmpty(s: string, ws: set<char>)
    requires AllIn(s, ws)
    ensures TrimEnd(s, ws) == []
    ensures TrimWith(s, ws) == []
    decreases |s|
  {
    if s != [] {
      BlankTrimsToEmpty(s[..|s| - 1], ws);
    }
  }

  lemma AllInAppend(a: string, b: string, ws: set<char>)
    ensures AllIn(a + b, ws) <==> AllIn(a, ws) && AllIn(b, ws)
  {
    if AllIn(a, ws) && AllIn(b, ws) {
      forall j | 0 <= j < |a + b| ensures (a + b)[j] in ws {
        if j >= |a| { assert (a + b)[j] == b[j - |a|]; }
      }
    }
    if AllIn(a + b, ws) {
      forall j | 0 <= j < |a| ensures a[j] in ws {
        assert (a + b)[j] == a[j];
      }
      forall j | 0 <= j < |b| ensures b[j] in ws {
        assert (a + b)[|a| + j] == b[j];
      }
    }
  }

  /** The name check of create and update: `!name || name.trim() === ""`; the name kept is the
      trimmed one. */
  function ValidateName(name: Option<string>): (r: Result<string>)
    ensures r.Ok? <==> name.Some? && !AllWhitespace(name.value)
    ensures r.Err? ==> r.error == Invalid(NameRequired)
    ensures r.Ok? ==> r.value == Trim(name.value) && r.value != []
  {
    if name.None? || name.value == [] then Err(Invalid(NameRequired))
    else
      TrimEmptyIffBlank(name.value, Whitespace);
      if Trim(name.value) == [] then Err(Invalid(NameRequired)) else Ok(Trim(name.value))
  }

  /** The ids of the products that belong to a category (the `products` relation). */
  function ProductsOf(products: map<Id, Product>, categoryId: Id): set<Id>
  {
    set id | id in products && products[id].categoryId == categoryId
  }

  /** The number of products in a category; zero when the relation is empty. */
  function ProductCount(products: map<Id, Product>, categoryId: Id): (n: nat)
    ensures n == 0 <==> forall id :: id in products ==> products[id].categoryId != categoryId
  {
    var ids := ProductsOf(products, categoryId);
    assert ids != {} ==> exists id :: id in ids;
    assert forall id :: id in products && products[id].categoryId == categoryId ==> id in ids;
    |ids|
  }

  /** A row of the category list. */
  datatype CategoryEntry = CategoryEntry(id: Id, name: string, userId: UserId, productCount: nat)

  /** Code-point lexicographic order on names. */
  predicate NameLe(a: string, b: string)
  {
    a == [] || (b != [] && (a[0] < b[0] || (a[0] == b[0] && NameLe(a[1..], b[1..]))))
  }

  lemma {:induction false} NameLeTotal(a: string, b: string)
    ensures NameLe(a, b) || NameLe(b, a)
  {
    if a != [] && b != [] && a[0] == b[0] {
      NameLeTotal(a[1..], b[1..]);
    }
  }

  lemma {:induction false} NameLeTransitive(a: string, b: string, c: string)
    requires NameLe(a, b) && NameLe(b, c)
    ensures NameLe(a, c)
  {
    if a != [] && b != [] && c != [] && a[0] == b[0] && b[0] == c[0] {
      NameLeTransitive(a[1..], b[1..], c[1..]);
    }
  }

  predicate SortedByName(s: seq<CategoryEntry>)
  {
    forall i, j :: 0 <= i < j < |s| ==> NameLe(s[i].name, s[j].name)
  }

  /** An entry no greater than any entry of a sorted list can be put in front of it. */
  lemma PrependSorted(x: CategoryEntry, s: seq<CategoryEntry>)
    requires SortedByName(s)
    requires forall y :: y in s ==> NameLe(x.name, y.name)
    ensures SortedByName([x] + s)
  {
    var r := [x] + s;
    forall i, j | 0 <= i < j < |r| ensures NameLe(r[i].name, r[j].name) {
      assert r[j] == s[j - 1];
      if i > 0 {
        assert r[i] == s[i - 1];
      }
    }
  }

  /** An entry no greater than the head of a sorted list is no greater than any of it. */
  lemma HeadBelowAll(e: CategoryEntry, s: seq<CategoryEntry>)
    requires SortedByName(s) && s != [] && NameLe(e.name, s[0].name)
    ensures forall y :: y in s ==> NameLe(e.name, y.name)
  {
    forall y | y in s ensures NameLe(e.name, y.name) {
      var j :| 0 <= j < |s| && s[j] == y;
      if j > 0 {
        NameLeTransitive(e.name, s[0].name, y.name);
      }
    }
  }

  /** Inserting an entry that is not below the head into the tail keeps everything above the head. */
  lemma AboveHead(e: CategoryEntry, s: seq<CategoryEntry>, rest: seq<CategoryEntry>)
    requires SortedByName(s) && s != [] && NameLe(s[0].name, e.name)
    requires multiset(rest) == multiset(s[1..]) + multiset{e}
    ensures forall x :: x in rest ==> NameLe(s[0].name, x.name)
  {
    forall x | x in rest ensures NameLe(s[0].name, x.name) {
      assert x in multiset(rest);
      if x != e {
        assert x in multiset(s[1..]);
        var j :| 0 <= j < |s[1..]| && s[1..][j] == x;
        assert s[j + 1] == x;
      }
    }
  }

  /** One entry placed in front of the first entry whose name is not smaller. */
  function InsertByName(e: CategoryEntry, s: seq<CategoryEntry>): (r: seq<CategoryEntry>)
    requires SortedByName(s)
    ensures SortedByName(r)
    ensures multiset(r) == multiset(s) + multiset{e}
    decreases |s|
  {
    if s == [] then [e]
    else if NameLe(e.name, s[0].name) then
      HeadBelowAll(e, s);
      PrependSorted(e, s);
      [e] + s
    else
      NameLeTotal(e.name, s[0].name);
      var rest := InsertByName(e, s[1..]);
      AboveHead(e, s, rest);
      PrependSorted(s[0], rest);
      assert s == [s[0]] + s[1..];
      [s[0]] + rest
  }

  /** The entries sorted by name (`order: { name: "ASC" }`), keeping each entry once. */
  function SortByName(s: seq<CategoryEntry>): (r: seq<CategoryEntry>)
    ensures SortedByName(r)
    ensures multiset(r) == multiset(s)
  {
    if s == [] then []
    else
      assert s == [s[0]] + s[1..];
      InsertByName(s[0], SortByName(s[1..]))
  }

  /** Rows of a table: no two share an id. */
  predicate DistinctIds(rows: seq<Category>)
  {
    forall i, j :: 0 <= i < j < |rows| ==> rows[i].id != rows[j].id
  }

  /** The caller's categories, each with its number of products. */
  function OwnedEntries(rows: seq<Category>, products: map<Id, Product>, caller: UserId): (r: seq<CategoryEntry>)
    ensures forall e :: e in r <==>
      exists c :: c in rows && c.userId == caller && e == CategoryEntry(c.id, c.name, c.userId, ProductCount(products, c.id))
    ensures forall i :: 0 <= i < |r| ==> r[i].userId == caller
  {
    if rows == [] then []
    else
      var rest := OwnedEntries(rows[1..], products, caller);
      var c := rows[0];
      assert forall x :: x in rows <==> x == c || x in rows[1..];
      if c.userId == caller then [CategoryEntry(c.id, c.name, c.userId, ProductCount(products, c.id))] + rest
      else rest
  }

  /** No entry of the list occurs twice. */
  predicate EachOnce(s: seq<CategoryEntry>)
  {
    forall e :: e in s ==> multiset(s)[e] == 1
  }

  /** Rows with distinct ids give entries that each occur once. */
  lemma {:induction false} OwnedEntriesOnce(rows: seq<Category>, products: map<Id, Product>, caller: UserId)
    requires DistinctIds(rows)
    ensures EachOnce(OwnedEntries(rows, products, caller))
  {
    if rows != [] {
      var c := rows[0];
      var rest := OwnedEntries(rows[1..], products, caller);
      assert DistinctIds(rows[1..]) by {
        forall i, j | 0 <= i < j < |rows[1..]| ensures rows[1..][i].id != rows[1..][j].id {
          assert rows[1..][i] == rows[i + 1] && rows[1..][j] == rows[j + 1];
        }
      }
      OwnedEntriesOnce(rows[1..], products, caller);
      if c.userId == caller {
        var h := CategoryEntry(c.id, c.name, c.userId, ProductCount(products, c.id));
        forall e | e in rest ensures e.id != c.id {
          var d :| d in rows[1..] && d.userId == caller
            && e == CategoryEntry(d.id, d.name, d.userId, ProductCount(products, d.id));
          var j :| 0 <= j < |rows[1..]| && rows[1..][j] == d;
          assert rows[j + 1] == d;
        }
        assert OwnedEntries(rows, products, caller) == [h] + rest;
        assert h !in rest;
        assert multiset([h] + rest) == multiset{h} + multiset(rest);
        assert multiset(rest)[h] == 0 by {
          assert h !in multiset(rest);
        }
        forall e | e in [h] + rest ensures multiset([h] + rest)[e] == 1 {
          assert multiset([h] + rest)[e] == multiset{h}[e] + multiset(rest)[e];
          if e != h {
            assert e in rest;
            assert multiset{h}[e] == 0;
            assert multiset(rest)[e] == 1;
          } else {
            assert multiset{h}[e] == 1;
          }
        }
      }
    }
  }

  /** The category list. `rows` stands for the category table's rows as the query reads them; the
      result holds only the caller's categories, sorted by name, each with its product count, and
      each once when the rows' ids are distinct, as a table's primary keys are. */
  function ListCategories(rows: seq<Category>, products: map<Id, Product>, caller: UserId): (r: seq<CategoryEntry>)
    ensures SortedByName(r)
    ensures multiset(r) == multiset(OwnedEntries(rows, products, caller))
    ensures forall e :: e in r ==> e.userId == caller && e.productCount == ProductCount(products, e.id)
    ensures forall c :: c in rows && c.userId == caller ==>
      CategoryEntry(c.id, c.name, c.userId, ProductCount(products, c.id)) in r
    ensures DistinctIds(rows) ==> EachOnce(r)
  {
    var owned := OwnedEntries(rows, products, caller);
    var r := SortByName(owned);
    assert DistinctIds(rows) ==> EachOnce(owned) by {
      if DistinctIds(rows) {
        OwnedEntriesOnce(rows, products, caller);
      }
    }
    assert forall e :: e in r <==> e in owned by {
      forall e ensures e in r <==> e in owned {
        assert e in r <==> e in multiset(r);
        assert e in owned <==> e in multiset(owned);
      }
    }
    r
  }
}
