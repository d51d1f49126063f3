/**
 The text behind the checksum of a user's rights. The digest itself is taken to be injective, so a checksum is modelled
 by the text that is hashed.
 */
module RbacChecksum {
  /** Lexicographic order of names. */
  predicate Before(a: string, b: string)
    decreases |a|
  {
    a == "" || (b != "" && (a[0] < b[0] || (a[0] == b[0] && Before(a[1..], b[1..]))))
  }

  ghost predicate InOrder(names: seq<string>) {
    forall i, j :: 0 <= i < j < |names| ==> Before(names[i], names[j])
  }

  lemma {:induction false} BeforeTotal(a: string, b: string)
    ensures Before(a, b) || Before(b, a)
    ensures Before(a, b) && Before(b, a) ==> a == b
    decreases |a|
  {
    if a != "" && b != "" && a[0] == b[0] {
      BeforeTotal(a[1..], b[1..]);
      assert a == [a[0]] + a[1..] && b == [b[0]] + b[1..];
    }
  }

  lemma {:induction false} BeforeTransitive(a: string, b: string, c: string)
    requires Before(a, b) && Before(b, c)
    ensures Before(a, c)
    decreases |a|
  {
    if a != "" && a[0] == b[0] == c[0] {
      BeforeTransitive(a[1..], b[1..], c[1..]);
    }
  }

  function Insert(name: string, names: seq<string>): seq<string> {
    if names == [] || Before(name, names[0]) then [name] + names else [names[0]] + Insert(name, names[1..])
  }

  function Sort(names: seq<string>): seq<string> {
    if names == [] then [] else Insert(names[0], Sort(names[1..]))
  }

  function Join(names: seq<string>): string {
    if names == [] then "" else if |names| == 1 then names[0] else names[0] + "," + Join(names[1..])
  }

  /** The text that is hashed: the sorted roles and the sorted permissions. */
  function Payload(roles: seq<string>, permissions: seq<string>): string {
    Join(Sort(roles)) + "|" + Join(Sort(permissions))
  }

  /** A name that cannot be confused with a separator. */
  predicate Plain(name: string) { name != "" && ',' !in name && '|' !in name }

  predicate AllPlain(names: seq<string>) { forall n :: n in names ==> Plain(n) }

  // ---- sorting ----

  lemma {:induction false} InsertKeeps(name: string, names: seq<string>)
    ensures multiset(Insert(name, names)) == multiset(names) + multiset{name}
    ensures forall n :: n in Insert(name, names) <==> n == name || n in names
    decreases |names|
  {
    if names != [] && !Before(name, names[0]) {
      InsertKeeps(name, names[1..]);
      assert names == [names[0]] + names[1..];
    }
  }

  /** The first name comes before all later ones; then one more in front keeps the order. */
  lemma ConsInOrder(first: string, rest: seq<string>)
    requires InOrder(rest) && forall n :: n in rest ==> Before(first, n)
    ensures InOrder([first] + rest)
  {
  }

  lemma {:induction false} InsertInOrder(name: string, names: seq<string>)
    requires InOrder(names)
    ensures InOrder(Insert(name, names))
    decreases |names|
  {
    if names == [] || Before(name, names[0]) {
      forall n | n in names ensures Before(name, n) {
        var i :| 0 <= i < |names| && names[i] == n;
        if i > 0 { BeforeTransitive(name, names[0], n); }
      }
      ConsInOrder(name, names);
    } else {
      BeforeTotal(name, names[0]);
      InsertInOrder(name, names[1..]);
      InsertKeeps(name, names[1..]);
      ConsInOrder(names[0], Insert(name, names[1..]));
    }
  }

  lemma {:induction false} SortSorts(names: seq<string>)
    ensures InOrder(Sort(names)) && multiset(Sort(names)) == multiset(names)
    decreases |names|
  {
    if names != [] {
      SortSorts(names[1..]);
      InsertInOrder(names[0], Sort(names[1..]));
      InsertKeeps(names[0], Sort(names[1..]));
      assert names == [names[0]] + names[1..];
    }
  }

  lemma FirstIsLeast(s: seq<string>, n: string)
    requires InOrder(s) && n in multiset(s)
    ensures Before(s[0], n)
  {
    BeforeTotal(s[0], s[0]);
  }

  lemma Tail(s: seq<string>)
    requires s != []
    ensures multiset(s[1..]) == multiset(s) - multiset{s[0]} && s[0] in multiset(s) && s == [s[0]] + s[1..]
    ensures InOrder(s) ==> InOrder(s[1..])
  {
    hide Before;
    assert s == [s[0]] + s[1..];
  }

  lemma SameSize(s: seq<string>, t: seq<string>)
    requires multiset(s) == multiset(t)
    ensures |s| == |t|
  {
    assert |multiset(s)| == |multiset(t)|;
  }

  /** There is only one way to put names in order, whichever sorting algorithm is used. */
  lemma {:induction false} OneOrder(s: seq<string>, t: seq<string>)
    requires InOrder(s) && InOrder(t) && multiset(s) == multiset(t)
    ensures s == t
    decreases |s|
  {
    hide *;
    SameSize(s, t);
    if s != [] {
      Tail(s);
      Tail(t);
      FirstIsLeast(s, t[0]);
      FirstIsLeast(t, s[0]);
      BeforeTotal(s[0], t[0]);
      OneOrder(s[1..], t[1..]);
    }
  }

  // ---- reading the text back ----

  lemma SameHead(c: char, a: string, b: string, a': string, b': string)
    requires c !in a && c !in a' && a + [c] + b == a' + [c] + b'
    ensures a == a' && b == b'
  {
    var s, s' := a + [c] + b, a' + [c] + b';
    assert s[|a|] == c && s'[|a'|] == c;
    assert forall k :: 0 <= k < |a| ==> s[k] == a[k];
    assert forall k :: 0 <= k < |a'| ==> s'[k] == a'[k];
    assert |a| == |a'|;
    assert s[..|a|] == a && s'[..|a'|] == a' && s[|a| + 1..] == b && s'[|a'| + 1..] == b';
  }

  lemma {:induction false} JoinFree(names: seq<string>, c: char)
    requires c != ',' && forall n :: n in names ==> c !in n
    ensures c !in Join(names)
    decreases |names|
  {
    if |names| > 1 { JoinFree(names[1..], c); }
  }

  lemma JoinComma(names: seq<string>)
    ensures |names| > 1 ==> ',' in Join(names)
  {
    if |names| > 1 { assert Join(names)[|names[0]|] == ','; }
  }

  lemma JoinLone(name: string, names: seq<string>)
    requires Plain(name) && AllPlain(names) && Join(names) == name
    ensures names == [name]
  {
    JoinComma(names);
  }

  lemma {:induction false} JoinInjective(s: seq<string>, t: seq<string>)
    requires AllPlain(s) && AllPlain(t) && Join(s) == Join(t)
    ensures s == t
    decreases |s|
  {
    if s == [] {
      assert t != [] ==> Plain(t[0]);
    } else if |s| == 1 {
      JoinLone(s[0], t);
    } else if |t| == 1 {
      JoinLone(t[0], s);
    } else {
      assert Plain(s[0]);
      if t != [] {
        assert Plain(t[0]);
        SameHead(',', s[0], Join(s[1..]), t[0], Join(t[1..]));
        JoinInjective(s[1..], t[1..]);
        assert s == [s[0]] + s[1..] && t == [t[0]] + t[1..];
      }
    }
  }

  lemma SortPlain(names: seq<string>)
    requires AllPlain(names)
    ensures AllPlain(Sort(names))
  {
    SortSorts(names);
    assert forall n :: n in Sort(names) ==> n in multiset(Sort(names));
  }

  // ---- the results ----

  /** The order in which roles and permissions are listed does not matter, for any names. */
  lemma PayloadOrderFree(roles: seq<string>, permissions: seq<string>, roles': seq<string>, permissions': seq<string>)
    requires multiset(roles) == multiset(roles') && multiset(permissions) == multiset(permissions')
    ensures Payload(roles, permissions) == Payload(roles', permissions')
  {
    SortSorts(roles);
    SortSorts(roles');
    OneOrder(Sort(roles), Sort(roles'));
    SortSorts(permissions);
    SortSorts(permissions');
    OneOrder(Sort(permissions), Sort(permissions'));
  }

  /** For plain names the texts agree exactly when the rights do. */
  lemma PayloadTellsRights(roles: seq<string>, permissions: seq<string>, roles': seq<string>, permissions': seq<string>)
    requires AllPlain(roles) && AllPlain(permissions) && AllPlain(roles') && AllPlain(permissions')
    ensures Payload(roles, permissions) == Payload(roles', permissions')
            <==> multiset(roles) == multiset(roles') && multiset(permissions) == multiset(permissions')
  {
    if Payload(roles, permissions) == Payload(roles', permissions') {
      SortPlain(roles);
      SortPlain(roles');
      SortPlain(permissions);
      SortPlain(permissions');
      JoinFree(Sort(roles), '|');
      JoinFree(Sort(roles'), '|');
      SameHead('|', Join(Sort(roles)), Join(Sort(permissions)), Join(Sort(roles')), Join(Sort(permissions')));
      JoinInjective(Sort(roles), Sort(roles'));
      JoinInjective(Sort(permissions), Sort(permissions'));
      SortSorts(roles);
      SortSorts(roles');
      SortSorts(permissions);
      SortSorts(permissions');
    }
    if multiset(roles) == multiset(roles') && multiset(permissions) == multiset(permissions') {
      PayloadOrderFree(roles, permissions, roles', permissions');
    }
  }

  /** A comma inside a name, or an empty name, breaks this. */
  lemma PlainNamesNeeded()
    ensures Payload(["a,b"], []) == Payload(["a", "b"], []) && multiset(["a,b"]) != multiset(["a", "b"])
    ensures Payload([""], []) == Payload([], []) && multiset([""]) != multiset([])
  {
    assert Sort(["a,b"]) == ["a,b"];
    assert ["a", "b"][1..] == ["b"];
    assert Sort(["b"]) == ["b"];
    assert Sort(["a", "b"]) == ["a", "b"];
    assert Join(["b"]) == "b";
    assert Join(["a", "b"]) == "a" + "," + "b" == "a,b";
    assert "a,b" in multiset(["a,b"]);
    assert Sort([""]) == [""];
    assert "" in multiset([""]);
  }
}
