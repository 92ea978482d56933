/** Names in the order of their characters' code points. */
module NameOrder {

  predicate Less(a: string, b: string) {
    if a == [] then b != []
    else b != [] && (a[0] < b[0] || (a[0] == b[0] && Less(a[1..], b[1..])))
  }

  lemma {:induction false} LessTransitive(a: string, b: string, c: string)
    requires Less(a, b) && Less(b, c)
    ensures Less(a, c)
  {
    if a != [] && a[0] == b[0] && b[0] == c[0] { LessTransitive(a[1..], b[1..], c[1..]); }
  }

  lemma {:induction false} LessTotal(a: string, b: string)
    ensures Less(a, b) || a == b || Less(b, a)
    ensures !(Less(a, b) && Less(b, a)) && !Less(a, a)
  {
    if a != [] {
      LessTotal(a[1..], a[1..]);
      if b != [] {
        LessTotal(a[1..], b[1..]);
        if a[1..] == b[1..] && a[0] == b[0] { assert a == [a[0]] + a[1..] && b == [b[0]] + b[1..]; }
      }
    }
  }

  predicate Ascending(names: seq<string>) { forall i, j :: 0 <= i < j < |names| ==> Less(names[i], names[j]) }

  function Insert(name: string, names: seq<string>): seq<string> {
    if names == [] || Less(name, names[0]) then [name] + names else [names[0]] + Insert(name, names[1..])
  }

  lemma {:induction false} Inserted(name: string, names: seq<string>)
    requires Ascending(names) && name !in names
    ensures Ascending(Insert(name, names))
    ensures forall x :: x in Insert(name, names) <==> x == name || x in names
  {
    if names == [] {
    } else if Less(name, names[0]) {
      forall j | 0 <= j < |names| ensures Less(name, names[j]) {
        if j > 0 { LessTransitive(name, names[0], names[j]); }
      }
    } else {
      var rest := Insert(name, names[1..]);
      Inserted(name, names[1..]);
      LessTotal(name, names[0]);
      assert names == [names[0]] + names[1..];
      forall j | 0 <= j < |rest| ensures Less(names[0], rest[j]) {
        assert rest[j] in rest;
        if rest[j] != name {
          var k :| 0 <= k < |names[1..]| && names[1..][k] == rest[j];
          assert names[k + 1] == rest[j];
        }
      }
    }
  }

  /** `sorted(names)`. */
  method Sorted(names: set<string>) returns (r: seq<string>)
    ensures Ascending(r) && forall x :: x in r <==> x in names
  {
    r := [];
    var left := names;
    while left != {}
      invariant left <= names && Ascending(r)
      invariant forall x :: x in r <==> x in names && x !in left
      decreases |left|
    {
      var x :| x in left;
      left := left - {x};
      Inserted(x, r);
      r := Insert(x, r);
    }
  }
}
