/** The order on strings and byte strings that the sources sort by. */
module Ordering {

  /** Lexicographic order of integer sequences; characters compare by code point. */
  predicate Less(a: seq<int>, b: seq<int>) {
    b != [] && (a == [] || a[0] < b[0] || (a[0] == b[0] && Less(a[1..], b[1..])))
  }

  function Codes(s: string): seq<int> {
    seq(|s|, i requires 0 <= i < |s| => s[i] as int)
  }

  predicate LessText(a: string, b: string) {
    Less(Codes(a), Codes(b))
  }

  lemma {:induction false} LessIsTotal(a: seq<int>, b: seq<int>)
    ensures a == b || Less(a, b) || Less(b, a)
  {
    if a != [] && b != [] && a[0] == b[0] {
      LessIsTotal(a[1..], b[1..]);
      assert a == [a[0]] + a[1..] && b == [b[0]] + b[1..];
    }
  }

  lemma {:induction false} LessIsStrict(a: seq<int>, b: seq<int>)
    requires Less(a, b)
    ensures !Less(b, a) && a != b
  {
    if a != [] && a[0] == b[0] {
      LessIsStrict(a[1..], b[1..]);
    }
  }

  lemma {:induction false} LessIsTransitive(a: seq<int>, b: seq<int>, c: seq<int>)
    requires Less(a, b) && Less(b, c)
    ensures Less(a, c)
  {
    if a != [] && a[0] == b[0] && b[0] == c[0] {
      LessIsTransitive(a[1..], b[1..], c[1..]);
    }
  }

  lemma CodesAreInjective(a: string, b: string)
    requires Codes(a) == Codes(b)
    ensures a == b
  {
    forall i | 0 <= i < |a|
      ensures |a| == |b| && a[i] == b[i]
    {
      assert |Codes(a)| == |a| && |Codes(b)| == |b|;
      assert Codes(a)[i] == a[i] as int && Codes(b)[i] == b[i] as int;
    }
    assert |a| == |Codes(a)| == |Codes(b)| == |b|;
  }

  lemma LessTextIsTotal(a: string, b: string)
    requires a != b
    ensures LessText(a, b) || LessText(b, a)
  {
    LessIsTotal(Codes(a), Codes(b));
    if Codes(a) == Codes(b) {
      CodesAreInjective(a, b);
    }
  }

  ghost predicate SortedTexts(s: seq<string>) {
    forall i, j :: 0 <= i < j < |s| ==> LessText(s[i], s[j])
  }

  /** The smallest of some texts. */
  method LeastText(texts: set<string>) returns (least: string)
    requires texts != {}
    ensures least in texts && forall t <- texts :: t == least || LessText(least, t)
  {
    least :| least in texts;
    var seen := {least};
    while seen != texts
      invariant seen <= texts && least in seen
      invariant forall t <- seen :: t == least || LessText(least, t)
      decreases |texts - seen|
    {
      ghost var left := texts - seen;
      var t :| t in texts && t !in seen;
      LessTextIsTotal(t, least);
      if LessText(t, least) {
        forall x | x in seen && x != least
          ensures LessText(t, x)
        {
          LessIsTransitive(Codes(t), Codes(least), Codes(x));
        }
        least := t;
      }
      seen := seen + {t};
      assert left == (texts - seen) + {t};
    }
  }

  /** Texts in order. */
  method SortTexts(texts: set<string>) returns (r: seq<string>)
    ensures SortedTexts(r)
    ensures forall t :: t in r <==> t in texts
  {
    r := [];
    var rest := texts;
    while rest != {}
      invariant SortedTexts(r) && forall t :: t in texts <==> t in r || t in rest
      invariant forall i, t :: 0 <= i < |r| && t in rest ==> LessText(r[i], t)
      decreases |rest|
    {
      var least := LeastText(rest);
      r, rest := r + [least], rest - {least};
    }
  }
}
