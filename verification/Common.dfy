/** Small datatypes and string facts shared by the other modules. */
module Common {

  datatype Option<+T> = None | Some(value: T)

  lemma AppendAssociates<T>(a: seq<T>, b: seq<T>, c: seq<T>)
    ensures a + (b + c) == a + b + c
  {
  }

  /** The concatenation of a list of strings. */
  function Concat(parts: seq<string>): string {
    if parts == [] then "" else parts[0] + Concat(parts[1..])
  }

  lemma {:induction false} ConcatAppend(a: seq<string>, b: seq<string>)
    ensures Concat(a + b) == Concat(a) + Concat(b)
  {
    if a == [] {
      assert a + b == b;
    } else {
      ConcatAppend(a[1..], b);
      assert (a + b)[0] == a[0] && (a + b)[1..] == a[1..] + b;
      AppendAssociates(a[0], Concat(a[1..]), Concat(b));
    }
  }

  /** The position of the first c in s, or |s|: what strchr() finds. */
  function IndexOf(s: string, c: char): (i: nat)
    ensures i <= |s|
    ensures c !in s[..i]
    ensures i < |s| ==> s[i] == c
  {
    if s == "" || s[0] == c then 0
    else
      var i := 1 + IndexOf(s[1..], c);
      assert s[..i] == [s[0]] + s[1..][..i - 1];
      i
  }

  /** The first c of a + [c] + b is the one shown, when a has none. */
  lemma IndexOfJoin(a: string, c: char, b: string)
    requires c !in a
    ensures IndexOf(a + [c] + b, c) == |a|
  {
    var s := a + [c] + b;
    var i := IndexOf(s, c);
    assert s[|a|] == c;
    assert s[..|a|] == a;
  }

  ghost predicate Distinct<T>(s: seq<T>) {
    forall i, j :: 0 <= i < j < |s| ==> s[i] != s[j]
  }

  /** Distinctness, one element at a time from the front. */
  lemma DistinctCons<T>(s: seq<T>)
    requires s != []
    ensures Distinct(s) <==> s[0] !in s[1..] && Distinct(s[1..])
  {
    var rest := s[1..];
    forall i, j | s[0] !in rest && Distinct(rest) && 0 <= i < j < |s| ensures s[i] != s[j] {
      assert rest[j - 1] == s[j] && s[j] in rest;
      assert i > 0 ==> rest[i - 1] == s[i];
    }
    forall i | Distinct(s) && 0 <= i < |rest| ensures rest[i] != s[0] {
      assert rest[i] == s[i + 1];
    }
  }

  lemma DistinctAppended<T>(s: seq<T>, t: T)
    requires Distinct(s) && t !in s
    ensures Distinct(s + [t])
  {
  }

  lemma DistinctRemoved<T>(s: seq<T>, k: nat)
    requires k < |s| && Distinct(s)
    ensures Distinct(s[..k] + s[k + 1..]) && s[k] !in s[..k] + s[k + 1..]
    ensures forall i :: 0 <= i < |s| - 1 ==> (s[..k] + s[k + 1..])[i] == if i < k then s[i] else s[i + 1]
  {
  }
}
