/**
 * `dynamical_access(obj, attr_path)`: follows a dot-separated attribute path
 * from an object, answering None as soon as a step is missing or None.
 * Objects are modelled as maps from attribute names to values.
 */
module DynamicAccess {
  import opened Text

  /** What `getattr` can return: None, a plain (leaf) value, or an object with named attributes. */
  datatype Value = NoneValue | Leaf(text: string) | Object(attrs: map<string, Value>)

  /** `getattr(v, attr, None)`. */
  function GetAttr(v: Value, attr: string): (r: Value)
    ensures r != NoneValue ==> v.Object? && attr in v.attrs && r == v.attrs[attr]
    ensures v.Object? && attr in v.attrs ==> r == v.attrs[attr]
    ensures !(v.Object? && attr in v.attrs) ==> r == NoneValue
  {
    if v.Object? && attr in v.attrs then v.attrs[attr] else NoneValue
  }

  /** Follows the attribute names in turn, stopping with None at the first step that gives None. */
  function Follow(v: Value, attrs: seq<string>): Value {
    if attrs == [] then v
    else
      var next := GetAttr(v, attrs[0]);
      if next == NoneValue then NoneValue else Follow(next, attrs[1..])
  }

  /** The value `dynamical_access` returns. */
  function Access(obj: Value, path: string): Value {
    Follow(obj, Split(path, '.'))
  }

  /** The loop of `dynamical_access`: one `getattr` per path component, leaving early on None. */
  method DynamicalAccess(obj: Value, path: string) returns (target: Value)
    ensures target == Access(obj, path)
  {
    var attrs := Split(path, '.');
    target := obj;
    var i := 0;
    while i < |attrs|
      invariant 0 <= i <= |attrs|
      invariant Follow(obj, attrs) == Follow(target, attrs[i..])
    {
      assert attrs[i..][1..] == attrs[i + 1..];
      target := GetAttr(target, attrs[i]);
      if target == NoneValue {
        break;
      }
      i := i + 1;
    }
  }

  /** None has no attributes: following any non-empty path from None gives None. */
  lemma {:induction false} FollowFromNone(attrs: seq<string>)
    ensures Follow(NoneValue, attrs) == NoneValue
  {
  }

  /** Following `a` and then `b` is following `a + b`. */
  lemma {:induction false} FollowConcat(v: Value, a: seq<string>, b: seq<string>)
    ensures Follow(v, a + b) == Follow(Follow(v, a), b)
  {
    if a == [] {
      assert a + b == b;
    } else {
      var next := GetAttr(v, a[0]);
      assert (a + b)[0] == a[0] && (a + b)[1..] == a[1..] + b;
      if next == NoneValue {
        FollowFromNone(b);
      } else {
        FollowConcat(next, a[1..], b);
      }
    }
  }

  /**
   * The result is present exactly when every step finds its attribute: for a
   * non-empty path, None comes back if and only if some step, taken from the
   * value the earlier steps reached, gives None.
   */
  lemma {:induction false} FollowPresent(v: Value, attrs: seq<string>)
    requires attrs != []
    ensures Follow(v, attrs) != NoneValue <==>
      forall i :: 0 <= i < |attrs| ==> GetAttr(Follow(v, attrs[..i]), attrs[i]) != NoneValue
  {
    var next := GetAttr(v, attrs[0]);
    assert attrs[..0] == [];
    if next != NoneValue && |attrs| > 1 {
      FollowPresent(next, attrs[1..]);
      forall i | 1 <= i < |attrs|
        ensures Follow(v, attrs[..i]) == Follow(next, attrs[1..][..i - 1])
        ensures attrs[i] == attrs[1..][i - 1]
      {
        assert attrs[..i][0] == attrs[0] && attrs[..i][1..] == attrs[1..][..i - 1];
      }
    }
  }

  /** The index of the first '.' in `s`, found inside a longer string that starts with `s`. */
  lemma {:induction false} FindCharPrefix(a: string, b: string, sep: char)
    ensures FindChar(a + [sep] + b, sep) == FindChar(a, sep)
  {
    if a != [] && a[0] != sep {
      assert (a + [sep] + b)[1..] == a[1..] + [sep] + b;
      FindCharPrefix(a[1..], b, sep);
    }
  }

  /** Splitting `a + sep + b` splits `a` and `b` separately. */
  lemma {:induction false} SplitConcat(a: string, b: string, sep: char)
    ensures Split(a + [sep] + b, sep) == Split(a, sep) + Split(b, sep)
    decreases |a|
  {
    var k := FindChar(a, sep);
    if k == |a| {
      SplitConcatFirst(a, b, sep);
    } else {
      SplitConcat(a[k + 1..], b, sep);
      SplitConcatStep(a, b, sep);
    }
  }

  /** When `a` holds no separator, the first piece of `a + sep + b` is `a` itself. */
  lemma SplitConcatFirst(a: string, b: string, sep: char)
    requires FindChar(a, sep) == |a|
    ensures Split(a + [sep] + b, sep) == Split(a, sep) + Split(b, sep)
  {
    var s := a + [sep] + b;
    FindCharPrefix(a, b, sep);
    assert s[..|a|] == a && s[|a| + 1..] == b;
  }

  /** The first piece of `a + sep + b` is the first piece of `a`; the rest splits as the rest of `a`, then `sep`, then `b`. */
  lemma SplitConcatStep(a: string, b: string, sep: char)
    requires FindChar(a, sep) < |a|
    requires var r := a[FindChar(a, sep) + 1..];
      Split(r + [sep] + b, sep) == Split(r, sep) + Split(b, sep)
    ensures Split(a + [sep] + b, sep) == Split(a, sep) + Split(b, sep)
  {
    var s := a + [sep] + b;
    var k := FindChar(a, sep);
    FindCharPrefix(a, b, sep);
    SplitFirstPiece(s, sep, k);
    SplitFirstPiece(a, sep, k);
    GlueSlices(a, b, sep, k);
    AppendAssoc([a[..k]], Split(a[k + 1..], sep), Split(b, sep));
  }

  lemma AppendAssoc<T>(x: seq<T>, p: seq<T>, q: seq<T>)
    ensures x + (p + q) == (x + p) + q
  {
  }

  lemma SplitFirstPiece(s: string, sep: char, k: nat)
    requires k == FindChar(s, sep) < |s|
    ensures Split(s, sep) == [s[..k]] + Split(s[k + 1..], sep)
  {
  }

  lemma GlueSlices(a: string, b: string, sep: char, k: nat)
    requires k < |a|
    ensures (a + [sep] + b)[..k] == a[..k] && (a + [sep] + b)[k + 1..] == a[k + 1..] + [sep] + b
  {
    assert (a + [sep] + b)[..k] == a[..k];
    assert (a + [sep] + b)[k + 1..] == a[k + 1..] + [sep] + b;
  }

  /** Accessing `p.q` is accessing `q` on the result of accessing `p`. */
  lemma {:induction false} AccessConcat(obj: Value, p: string, q: string)
    ensures Access(obj, p + "." + q) == Access(Access(obj, p), q)
  {
    SplitConcat(p, q, '.');
    FollowConcat(obj, Split(p, '.'), Split(q, '.'));
  }

  /** A one-component path is a single `getattr`. */
  lemma {:induction false} AccessSingle(obj: Value, attr: string)
    requires '.' !in attr
    ensures Access(obj, attr) == GetAttr(obj, attr)
  {
    assert FindChar(attr, '.') == |attr|;
    assert Split(attr, '.') == [attr];
    var next := GetAttr(obj, attr);
    assert [attr][1..] == [];
    assert next != NoneValue ==> Follow(obj, [attr]) == Follow(next, []);
  }
}
