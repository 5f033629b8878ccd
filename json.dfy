/** JavaScript values as the plugin sees them: records returned by the Xata client,
    filter literals and record fields handed back to Budibase. Numbers are integers;
    objects are maps from property names to values. */
module Json {

  /** A file object of the Xata client (`XataFile`). */
  datatype XataFile = XataFile(name: string, mediaType: string, size: int, url: string, signedUrl: string)

  datatype Value =
    | Undefined
    | Null
    | Bool(b: bool)
    | Num(n: int)
    | Str(s: string)
    | Arr(items: seq<Value>)
    | Obj(props: map<string, Value>)
    | File(file: XataFile)

  /** `vs.flat(1)`: arrays are spliced in, every other value is kept as it is. */
  function Flat1(vs: seq<Value>): seq<Value>
  {
    if vs == [] then []
    else (if vs[0].Arr? then vs[0].items else [vs[0]]) + Flat1(vs[1..])
  }

  /** The flattened list holds exactly the elements of the array members and
      the other members themselves. */
  lemma {:induction false} Flat1Members(vs: seq<Value>)
    ensures forall x :: x in Flat1(vs) <==>
      exists i :: 0 <= i < |vs| && ((vs[i].Arr? && x in vs[i].items) || (!vs[i].Arr? && x == vs[i]))
  {
    if vs != [] {
      Flat1Members(vs[1..]);
      var rest := Flat1(vs[1..]);
      forall x | x in rest ensures exists i :: 1 <= i < |vs| && ((vs[i].Arr? && x in vs[i].items) || (!vs[i].Arr? && x == vs[i])) {
        var j :| 0 <= j < |vs[1..]| && ((vs[1..][j].Arr? && x in vs[1..][j].items) || (!vs[1..][j].Arr? && x == vs[1..][j]));
        assert vs[1..][j] == vs[j + 1];
      }
      forall x | exists i :: 1 <= i < |vs| && ((vs[i].Arr? && x in vs[i].items) || (!vs[i].Arr? && x == vs[i])) ensures x in rest {
        var i :| 1 <= i < |vs| && ((vs[i].Arr? && x in vs[i].items) || (!vs[i].Arr? && x == vs[i]));
        assert vs[1..][i - 1] == vs[i];
      }
    }
  }

  /** The pieces of a lodash property path: `s` cut at every `.`. */
  function Split(s: string): (r: seq<string>)
    ensures |r| >= 1
    ensures forall i :: 0 <= i < |r| ==> '.' !in r[i]
  {
    if s == [] then [""]
    else
      var rest := Split(s[1..]);
      if s[0] == '.' then [""] + rest else [[s[0]] + rest[0]] + rest[1..]
  }

  /** Inverse of `Split`: the pieces glued back together with `.`. */
  function Join(pieces: seq<string>): string
    requires |pieces| >= 1
  {
    if |pieces| == 1 then pieces[0] else pieces[0] + "." + Join(pieces[1..])
  }

  /** Cutting a path at its dots loses nothing. */
  lemma {:induction false} SplitJoin(s: string)
    ensures Join(Split(s)) == s
  {
    if s != [] {
      SplitJoin(s[1..]);
      var rest := Split(s[1..]);
      if s[0] == '.' {
        assert Split(s) == [""] + rest;
        assert Join(Split(s)) == "" + "." + Join(rest);
      } else {
        assert Split(s) == [[s[0]] + rest[0]] + rest[1..];
        if |rest| == 1 {
          assert Join(Split(s)) == [s[0]] + rest[0];
        } else {
          assert Join(rest) == rest[0] + "." + Join(rest[1..]);
          assert Split(s)[1..] == rest[1..];
          assert Join(Split(s)) == [s[0]] + rest[0] + "." + Join(rest[1..]);
        }
        assert s == [s[0]] + s[1..];
      }
    }
  }

  /** Walks `keys` through nested objects; anything that is not an object holding
      the next key gives `undefined`. */
  function GetPath(v: Value, keys: seq<string>): Value
    decreases |keys|
  {
    if keys == [] then v
    else if v.Obj? && keys[0] in v.props then GetPath(v.props[keys[0]], keys[1..])
    else Undefined
  }

  /** `_.get(v, path)`: a path that is itself a property of `v` is looked up directly,
      any other path is cut at its dots and walked. */
  function Get(v: Value, path: string): (r: Value)
    ensures v.Obj? && path in v.props ==> r == v.props[path]
    ensures v.Obj? && '.' !in path && path !in v.props ==> r == Undefined
    ensures !v.Obj? ==> r == Undefined
  {
    if v.Obj? && path in v.props then v.props[path]
    else
      var keys := Split(path);
      assert '.' !in path ==> keys == [path] by {
        if '.' !in path { NoDotSplit(path); }
      }
      GetPath(v, keys)
  }

  lemma {:induction false} NoDotSplit(s: string)
    requires '.' !in s
    ensures Split(s) == [s]
  {
    if s != [] {
      assert '.' !in s[1..] by { assert forall i :: 0 <= i < |s[1..]| ==> s[1..][i] == s[i + 1]; }
      NoDotSplit(s[1..]);
      assert s == [s[0]] + s[1..];
    }
  }

  /** `_.get(v, a + "." + b)` reaches the property `b` of the object at `a`, when
      neither `a` nor `b` holds a dot and the whole path is not itself a property. */
  lemma GetTwoSteps(v: Value, a: string, b: string)
    requires '.' !in a && '.' !in b
    requires v.Obj? && (a + "." + b) !in v.props
    ensures Get(v, a + "." + b) ==
      if a in v.props && v.props[a].Obj? && b in v.props[a].props then v.props[a].props[b] else Undefined
  {
    SplitDot(a, b);
    assert Get(v, a + "." + b) == GetPath(v, [a, b]);
    assert [a, b][1..] == [b];
    if a in v.props {
      var w := v.props[a];
      assert GetPath(v, [a, b]) == GetPath(w, [b]);
      assert [b][1..] == [];
      if w.Obj? && b in w.props {
        assert GetPath(w, [b]) == GetPath(w.props[b], []) == w.props[b];
      }
    }
  }

  lemma {:induction false} SplitDot(a: string, b: string)
    requires '.' !in a && '.' !in b
    ensures Split(a + "." + b) == [a, b]
    decreases |a|
  {
    if a == [] {
      assert a + "." + b == ['.'] + b;
      NoDotSplit(b);
      assert (['.'] + b)[1..] == b;
    } else {
      assert (a + "." + b)[1..] == a[1..] + "." + b;
      assert '.' !in a[1..] by { assert forall i :: 0 <= i < |a[1..]| ==> a[1..][i] == a[i + 1]; }
      SplitDot(a[1..], b);
      assert a == [a[0]] + a[1..];
    }
  }
}
