/** String helpers the backend relies on: `split('/')` and its inverse, the
    `geo_index/<prefix>/<uid>` index paths, `substring(0, n)`, and the order in
    which Firestore lists the documents of a collection (by document id). */
module Strings {
  import opened Common

  predicate NoSlash(s: string) {
    '/' !in s
  }

  /** JavaScript `s.split('/')`: the pieces between separators, the empty string
      giving one empty piece. */
  function Split(s: string): (parts: seq<string>)
    ensures |parts| >= 1
    decreases |s|
  {
    if s == [] then [""]
    else if s[0] == '/' then [""] + Split(s[1..])
    else var r := Split(s[1..]); [[s[0]] + r[0]] + r[1..]
  }

  /** `parts.join('/')`. */
  function Join(parts: seq<string>): string
    requires |parts| >= 1
    decreases |parts|
  {
    if |parts| == 1 then parts[0] else parts[0] + "/" + Join(parts[1..])
  }

  /** Splitting loses nothing: joining the pieces gives the string back, and no
      piece contains the separator. */
  lemma {:induction false} JoinSplit(s: string)
    ensures Join(Split(s)) == s
    ensures forall k | 0 <= k < |Split(s)| :: NoSlash(Split(s)[k])
    decreases |s|
  {
    if s != [] {
      JoinSplit(s[1..]);
      var r := Split(s[1..]);
      if s[0] == '/' {
        assert Split(s) == [""] + r;
        assert s == "/" + s[1..];
      } else {
        assert Split(s) == [[s[0]] + r[0]] + r[1..];
        if |r| == 1 {
          assert s == [s[0]] + s[1..];
        } else {
          assert Join(r) == r[0] + "/" + Join(r[1..]);
          assert s == [s[0]] + s[1..];
        }
      }
    }
  }

  lemma {:induction false} SplitCons(a: string, rest: string)
    requires NoSlash(a)
    ensures Split(a + "/" + rest) == [a] + Split(rest)
    decreases |a|
  {
    if a == [] {
      assert a + "/" + rest == "/" + rest;
    } else {
      SplitCons(a[1..], rest);
      assert (a + "/" + rest)[1..] == a[1..] + "/" + rest;
      assert [a[0]] + a[1..] == a;
    }
  }

  lemma {:induction false} SplitPlain(a: string)
    requires NoSlash(a)
    ensures Split(a) == [a]
    decreases |a|
  {
    if a != [] {
      SplitPlain(a[1..]);
      assert [a[0]] + a[1..] == a;
    }
  }

  /** Joining pieces free of the separator and splitting again gives the pieces back. */
  lemma {:induction false} SplitJoin(parts: seq<string>)
    requires |parts| >= 1
    requires forall k | 0 <= k < |parts| :: NoSlash(parts[k])
    ensures Split(Join(parts)) == parts
    decreases |parts|
  {
    if |parts| == 1 {
      SplitPlain(parts[0]);
    } else {
      SplitJoin(parts[1..]);
      SplitCons(parts[0], Join(parts[1..]));
      assert parts == [parts[0]] + parts[1..];
    }
  }

  // ---------------------------------------------------------------------------
  // Geo-index path paths

  /** The template literal `geo_index/${prefix}/${userId}`. */
  function BuildPath(prefix: string, uid: string): string {
    "geo_index/" + prefix + "/" + uid
  }

  /** The parsing the endpoints repeat before deleting an index entry: split on '/',
      accept exactly three pieces whose first is `geo_index`, and take the second. */
  function ParsePath(path: string): Option<string> {
    var parts := Split(path);
    if |parts| == 3 && parts[0] == "geo_index" then Some(parts[1]) else None
  }

  lemma BuildIsJoin(prefix: string, uid: string)
    ensures BuildPath(prefix, uid) == Join(["geo_index", prefix, uid])
  {
    assert ["geo_index", prefix, uid][1..] == [prefix, uid];
    assert [prefix, uid][1..] == [uid];
    assert Join([prefix, uid]) == prefix + "/" + uid;
    assert "geo_index/" == "geo_index" + "/";
  }

  /** For a prefix and a user id without '/', parsing the built path yields the prefix. */
  lemma ParseBuild(prefix: string, uid: string)
    requires NoSlash(prefix) && NoSlash(uid)
    ensures ParsePath(BuildPath(prefix, uid)) == Some(prefix)
  {
    BuildIsJoin(prefix, uid);
    SplitJoin(["geo_index", prefix, uid]);
  }

  /** Conversely, a path that parses is the path built from its prefix and its third
      piece, neither of which contains '/'. */
  lemma ParseSound(path: string)
    requires ParsePath(path).Some?
    ensures NoSlash(ParsePath(path).value) && NoSlash(Split(path)[2])
    ensures path == BuildPath(ParsePath(path).value, Split(path)[2])
  {
    var parts := Split(path);
    JoinSplit(path);
    assert parts[1..] == [parts[1], parts[2]];
    assert parts[1..][1..] == [parts[2]];
    BuildIsJoin(parts[1], parts[2]);
    assert parts == ["geo_index", parts[1], parts[2]];
  }

  /** Built paths name their prefix and user id uniquely. */
  lemma BuildInjective(p1: string, u1: string, p2: string, u2: string)
    requires NoSlash(p1) && NoSlash(u1) && NoSlash(p2) && NoSlash(u2)
    requires BuildPath(p1, u1) == BuildPath(p2, u2)
    ensures p1 == p2 && u1 == u2
  {
    BuildIsJoin(p1, u1);
    BuildIsJoin(p2, u2);
    SplitJoin(["geo_index", p1, u1]);
    SplitJoin(["geo_index", p2, u2]);
  }

  /** `s.substring(0, n)`. */
  function Prefix(s: string, n: nat): (r: string)
    ensures |r| == if |s| <= n then |s| else n
    ensures r == s[..|r|]
  {
    if |s| <= n then s else s[..n]
  }

  // ---------------------------------------------------------------------------
  // Document-id order

  /** Lexicographic order on character codes, a proper prefix first. */
  predicate LexLess(a: string, b: string)
    decreases |a|
  {
    if |a| == 0 then |b| > 0
    else if |b| == 0 then false
    else if a[0] != b[0] then a[0] < b[0]
    else LexLess(a[1..], b[1..])
  }

  lemma {:induction false} LexAsymmetric(a: string, b: string)
    ensures !(LexLess(a, b) && LexLess(b, a))
    decreases |a|
  {
    if |a| > 0 && |b| > 0 && a[0] == b[0] {
      LexAsymmetric(a[1..], b[1..]);
    }
  }

  lemma {:induction false} LexTotal(a: string, b: string)
    ensures a == b || LexLess(a, b) || LexLess(b, a)
    decreases |a|
  {
    if |a| > 0 && |b| > 0 && a[0] == b[0] {
      LexTotal(a[1..], b[1..]);
      if a[1..] == b[1..] {
        assert a == [a[0]] + a[1..] && b == [b[0]] + b[1..];
      }
    }
  }

  lemma {:induction false} LexTransitive(a: string, b: string, c: string)
    requires LexLess(a, b) && LexLess(b, c)
    ensures LexLess(a, c)
    decreases |a|
  {
    if |a| > 0 && a[0] == b[0] && b[0] == c[0] {
      LexTransitive(a[1..], b[1..], c[1..]);
    }
  }

  lemma LexOrder()
    ensures forall a, b :: !(LexLess(a, b) && LexLess(b, a))
    ensures forall a, b :: a == b || LexLess(a, b) || LexLess(b, a)
  {
    forall a, b
      ensures !(LexLess(a, b) && LexLess(b, a))
      ensures a == b || LexLess(a, b) || LexLess(b, a)
    {
      LexAsymmetric(a, b);
      LexTotal(a, b);
    }
  }

  predicate IsLeast(m: string, s: set<string>) {
    m in s && forall x | x in s :: m == x || LexLess(m, x)
  }

  lemma {:induction false} LeastExists(s: set<string>)
    requires s != {}
    ensures exists m :: IsLeast(m, s)
    decreases |s|
  {
    var x :| x in s;
    if s != {x} {
      LeastExists(s - {x});
      var m :| IsLeast(m, s - {x});
      LexTotal(m, x);
      if LexLess(x, m) {
        forall y | y in s
          ensures x == y || LexLess(x, y)
        {
          if y != x && y != m {
            LexTransitive(x, m, y);
          }
        }
        assert IsLeast(x, s);
      } else {
        assert IsLeast(m, s);
      }
    } else {
      assert IsLeast(x, s);
    }
  }

  /** The least document id of a non-empty set. */
  function Least(s: set<string>): (m: string)
    requires s != {}
    ensures IsLeast(m, s)
  {
    LeastExists(s);
    LexOrder();
    var m :| IsLeast(m, s); m
  }

  predicate StrictlySorted(r: seq<string>) {
    forall i, j | 0 <= i < j < |r| :: LexLess(r[i], r[j])
  }

  /** The ids of a set in increasing order: the order in which a collection's
      documents are listed. */
  function SortedKeys(s: set<string>): (r: seq<string>)
    ensures |r| == |s|
    ensures forall x :: x in r <==> x in s
    ensures StrictlySorted(r)
    decreases |s|
  {
    if s == {} then []
    else
      var m := Least(s);
      [m] + SortedKeys(s - {m})
  }
}
