/**
 * xPL address tags, vendor-device.instance. The script machine splits a tag
 * with a counting state machine that enforces lengths (parser.c); the message
 * parser cuts at the first '-' and the next '.' (xplcore.c).
 */
module XplTag {
  import opened Common

  datatype Tag = Tag(vendor: string, device: string, instance: string)

  function Join(t: Tag): string {
    t.vendor + "-" + t.device + "." + t.instance
  }

  /** Joined tags of this form can be cut apart again. */
  predicate Separable(t: Tag) {
    '-' !in t.vendor && '.' !in t.device
  }

  predicate LengthsAllowed(t: Tag) {
    1 <= |t.vendor| <= 9 && |t.device| <= 8 && |t.instance| <= 8
  }

  lemma NoDash(s: string)
    requires '-' !in s
    ensures forall t :: Join(t) != s
  {
    forall t ensures Join(t) != s {
      assert Join(t)[|t.vendor|] == '-';
    }
  }

  lemma NoDot(s: string, dash: nat)
    requires dash < |s| && IndexOf(s, '-') == dash && '.' !in s[dash + 1..]
    ensures forall t :: Separable(t) ==> Join(t) != s
  {
    forall t | Separable(t) ensures Join(t) != s {
      JoinSplits(t);
      assert (t.device + "." + t.instance)[|t.device|] == '.';
    }
  }

  function CutAtMarks(s: string): Option<Tag> {
    var dash := IndexOf(s, '-');
    if dash == |s| then None
    else
      var rest := s[dash + 1..];
      var dot := IndexOf(rest, '.');
      if dot == |rest| then None else Some(Tag(s[..dash], rest[..dot], rest[dot + 1..]))
  }

  lemma CutRejoins(s: string, dash: nat, dot: nat)
    requires dash < |s| && s[dash] == '-' && dot < |s[dash + 1..]| && s[dash + 1..][dot] == '.'
    ensures Join(Tag(s[..dash], s[dash + 1..][..dot], s[dash + 1..][dot + 1..])) == s
  {
    var rest := s[dash + 1..];
    assert rest == rest[..dot] + "." + rest[dot + 1..];
    assert s == s[..dash] + "-" + rest;
  }

  lemma CutMeaning(s: string)
    ensures CutAtMarks(s).Some? ==> Join(CutAtMarks(s).value) == s && Separable(CutAtMarks(s).value)
    ensures CutAtMarks(s).None? ==> forall t :: Separable(t) ==> Join(t) != s
  {
    var dash := IndexOf(s, '-');
    if dash == |s| {
      assert s[..dash] == s;
      NoDash(s);
    } else {
      var rest := s[dash + 1..];
      var dot := IndexOf(rest, '.');
      if dot == |rest| {
        assert rest[..dot] == rest;
        NoDot(s, dash);
      } else {
        CutRejoins(s, dash, dot);
      }
    }
  }

  /** The cut made by parseMessageHeader on a source or target value. */
  function Cut(s: string): (r: Option<Tag>)
    ensures r.Some? ==> Join(r.value) == s && Separable(r.value)
    ensures r.None? ==> forall t :: Separable(t) ==> Join(t) != s
  {
    CutMeaning(s);
    CutAtMarks(s)
  }

  lemma JoinSplits(t: Tag)
    requires Separable(t)
    ensures IndexOf(Join(t), '-') == |t.vendor|
    ensures Join(t)[|t.vendor| + 1..] == t.device + "." + t.instance
    ensures IndexOf(t.device + "." + t.instance, '.') == |t.device|
  {
    var rest := t.device + "." + t.instance;
    assert Join(t) == t.vendor + "-" + rest;
    IndexOfJoin(t.vendor, '-', rest);
    IndexOfJoin(t.device, '.', t.instance);
  }

  lemma IndexOfIs(s: string, c: char, i: nat)
    requires i < |s| && s[i] == c && c !in s[..i]
    ensures IndexOf(s, c) == i
  {
    var j := IndexOf(s, c);
    assert forall k :: 0 <= k < i ==> s[k] in s[..i];
    assert forall k :: 0 <= k < j ==> s[k] in s[..j];
  }

  /** Where the cut falls when the first '-' and the next '.' are known. */
  lemma CutAt(tag: string, dash: nat, dot: nat)
    requires dash < dot <= |tag| && tag[dash] == '-' && '-' !in tag[..dash]
    requires '.' !in tag[dash + 1..dot] && (dot < |tag| ==> tag[dot] == '.')
    ensures Cut(tag) ==
      if dot == |tag| then None else Some(Tag(tag[..dash], tag[dash + 1..dot], tag[dot + 1..]))
  {
    IndexOfIs(tag, '-', dash);
    var rest := tag[dash + 1..];
    assert rest[..dot - dash - 1] == tag[dash + 1..dot];
    if dot < |tag| {
      IndexOfIs(rest, '.', dot - dash - 1);
    } else {
      assert rest == tag[dash + 1..dot];
    }
  }

  ghost predicate Rejected(tag: string) {
    Cut(tag).None? || !LengthsAllowed(Cut(tag).value)
  }

  ghost predicate Accepted(tag: string, t: Tag) {
    Cut(tag) == Some(t) && LengthsAllowed(t)
  }

  /** The first '-', behind a vendor of permitted length. */
  ghost predicate VendorEnds(tag: string, dash: nat) {
    dash < |tag| && tag[dash] == '-' && '-' !in tag[..dash] && 1 <= dash <= 9
  }

  /** The first '.' behind it, and a device of permitted length. */
  ghost predicate DeviceEnds(tag: string, dash: nat, dot: nat) {
    dash < dot < |tag| && tag[dot] == '.' && '.' !in tag[dash + 1..dot] && dot - dash - 1 <= 8
  }

  lemma NoDashRejected(tag: string)
    requires '-' !in tag[..|tag|]
    ensures Rejected(tag)
  {
    assert tag[..|tag|] == tag;
    NoDash(tag);
  }

  lemma VendorRejected(tag: string, dash: nat)
    requires dash < |tag| && tag[dash] == '-' && '-' !in tag[..dash]
    requires dash == 0 || dash > 9
    ensures Rejected(tag)
  {
    IndexOfIs(tag, '-', dash);
  }

  lemma DeviceRejected(tag: string, dash: nat, dot: nat)
    requires VendorEnds(tag, dash) && dash < dot <= |tag| && '.' !in tag[dash + 1..dot]
    requires dot == |tag| || (tag[dot] == '.' && dot - dash > 9)
    ensures Rejected(tag)
  {
    CutAt(tag, dash, dot);
  }

  lemma InstanceEnds(tag: string, dash: nat, dot: nat)
    requires VendorEnds(tag, dash) && DeviceEnds(tag, dash, dot)
    ensures
      if |tag| - dot <= 9 then Accepted(tag, Tag(tag[..dash], tag[dash + 1..dot], tag[dot + 1..]))
      else Rejected(tag)
  {
    CutAt(tag, dash, dot);
  }

  /** Accepted or rejected, the tag is or is not a joined tag of permitted lengths. */
  lemma VerdictMeaning(tag: string, r: Option<Tag>)
    requires if r.Some? then Accepted(tag, r.value) else Rejected(tag)
    ensures forall t :: r == Some(t) <==>
      && '-' !in t.vendor && '.' !in t.device && t.vendor + "-" + t.device + "." + t.instance == tag
      && 1 <= |t.vendor| <= 9 && |t.device| <= 8 && |t.instance| <= 8
  {
    forall t | Separable(t) && Join(t) == tag ensures Cut(tag) == Some(t) {
      CutOfJoin(t);
    }
  }

  /** Cutting undoes joining, so a separable tag is determined by its text. */
  lemma CutOfJoin(t: Tag)
    requires Separable(t)
    ensures Cut(Join(t)) == Some(t)
  {
    JoinSplits(t);
    assert (t.device + "." + t.instance)[..|t.device|] == t.device;
    assert Join(t)[..|t.vendor|] == t.vendor;
  }

  /**
   * The tag splitter of the script machine. The end of the tag stands for its
   * terminating NUL. Splitting succeeds exactly on joined tags whose parts
   * have the permitted lengths, and then agrees with the header's cut.
   */
  method ParserSplitXPLTag(tag: string) returns (r: Option<Tag>)
    ensures forall t :: r == Some(t) <==>
      && '-' !in t.vendor && '.' !in t.device && t.vendor + "-" + t.device + "." + t.instance == tag
      && 1 <= |t.vendor| <= 9 && |t.device| <= 8 && |t.instance| <= 8
    ensures r.Some? ==> r == Cut(tag)
  {
    hide Cut, LengthsAllowed, Separable, Join;
    r := None;
    var state, i, j, begin := 0, 0, 0, 0;
    var vendor, device := "", "";
    var res := true;
    var done := false;
    ghost var dash, dot := 0, 0;
    while !done
      invariant 0 <= state <= 2 && 0 <= i
      invariant !done ==> i <= |tag| && r.None? && res
      invariant !done && state == 0 ==> j == i && '-' !in tag[..i]
      invariant state >= 1 ==> VendorEnds(tag, dash) && vendor == tag[..dash]
      invariant !done && state == 1 ==> begin == dash + 1 <= i && j == i - dash && '.' !in tag[dash + 1..i]
      invariant state == 2 ==> DeviceEnds(tag, dash, dot) && device == tag[dash + 1..dot]
      invariant !done && state == 2 ==> begin == dot + 1 <= i && j == i - dot
      invariant done ==> if r.Some? then Accepted(tag, r.value) else Rejected(tag)
      decreases !done, |tag| - i
    {
      if state == 0 {
        if i == |tag| {
          NoDashRejected(tag);
          done, res := true, false;
        } else if tag[i] == '-' {
          if j == 0 || j > 9 {
            VendorRejected(tag, i);
            done, res := true, false;
          } else {
            vendor := tag[..j];
            dash := i;
            begin, j, state := i + 1, 0, 1;
          }
        }
      } else {
        var inDevice := state == 1;
        if inDevice && (i == |tag| || (tag[i] == '.' && j > 9)) {
          DeviceRejected(tag, dash, i);
          done, res := true, false;
        } else {
          if inDevice && tag[i] == '.' {
            device := tag[begin..begin + j - 1];
            dot := i;
            begin, j, state := i + 1, 0, 2;
          }
          // The search for the dot falls through into the search for the end.
          if i == |tag| {
            InstanceEnds(tag, dash, dot);
            if j == 0 || j > 9 {
              res := false;
            }
            if res {
              assert tag[begin..begin + j - 1] == tag[dot + 1..];
              r := Some(Tag(vendor, device, tag[begin..begin + j - 1]));
            }
            done := true;
          }
        }
      }
      i, j := i + 1, j + 1;
    }
    VerdictMeaning(tag, r);
  }
}
