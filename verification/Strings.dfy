/** The order of `std::string`. */
module Strings {
  import opened Sequences

  /** The sign of `std::string::compare`. */
  function StringCompare(a: string, b: string): (c: int)
    ensures -1 <= c <= 1
  {
    if a == "" then (if b == "" then 0 else -1)
    else if b == "" then 1
    else if a[0] < b[0] then -1
    else if b[0] < a[0] then 1
    else StringCompare(a[1..], b[1..])
  }

  lemma {:induction false} StringLaws(a: string, b: string, c: string)
    ensures StringCompare(a, b) == 0 <==> a == b
    ensures StringCompare(b, a) == -StringCompare(a, b)
    ensures StringCompare(a, b) <= 0 && StringCompare(b, c) <= 0 ==> StringCompare(a, c) <= 0
  {
    if a != "" && b != "" {
      assert a == [a[0]] + a[1..] && b == [b[0]] + b[1..];
      StringLaws(a[1..], b[1..], if c == "" then "" else c[1..]);
    }
  }

  /** a comes before b: as a proper prefix of it, or by the smaller character at the first difference. */
  ghost predicate Before(a: string, b: string) {
    a < b || exists k :: 0 <= k < |a| && k < |b| && a[..k] == b[..k] && a[k] < b[k]
  }

  lemma {:induction false} BeforeInTails(a: string, b: string)
    requires a != "" && b != "" && a[0] == b[0] && Before(a, b)
    ensures Before(a[1..], b[1..])
  {
    if a < b {
      assert a[1..] < b[1..];
    } else {
      var k :| 0 <= k < |a| && k < |b| && a[..k] == b[..k] && a[k] < b[k];
      assert a[..k][1..] == a[1..][..k - 1] && b[..k][1..] == b[1..][..k - 1];
    }
  }

  lemma {:induction false} BeforeFromTails(a: string, b: string)
    requires a != "" && b != "" && a[0] == b[0] && Before(a[1..], b[1..])
    ensures Before(a, b)
  {
    var x, y := a[1..], b[1..];
    if x < y {
      assert a == [a[0]] + x && b == [b[0]] + y;
    } else {
      var k :| 0 <= k < |x| && k < |y| && x[..k] == y[..k] && x[k] < y[k];
      assert a[..k + 1] == [a[0]] + x[..k] && b[..k + 1] == [b[0]] + y[..k];
    }
  }

  lemma {:induction false} BeforeTails(a: string, b: string)
    requires a != "" && b != "" && a[0] == b[0]
    ensures Before(a, b) <==> Before(a[1..], b[1..])
  {
    if Before(a, b) {
      BeforeInTails(a, b);
    }
    if Before(a[1..], b[1..]) {
      BeforeFromTails(a, b);
    }
  }

  /** The comparison is negative exactly if the first string comes before the second, and positive exactly if it comes after. */
  lemma {:induction false} StringOrder(a: string, b: string)
    ensures StringCompare(a, b) < 0 <==> Before(a, b)
    ensures StringCompare(a, b) > 0 <==> Before(b, a)
  {
    if a != "" && b != "" {
      if a[0] == b[0] {
        BeforeTails(a, b);
        BeforeTails(b, a);
        StringOrder(a[1..], b[1..]);
      } else {
        FirstCharacter(a, b);
        FirstCharacter(b, a);
      }
    }
  }

  lemma {:induction false} FirstCharacter(a: string, b: string)
    requires a != "" && b != "" && a[0] != b[0]
    ensures Before(a, b) <==> a[0] < b[0]
  {
    if a[0] < b[0] {
      assert a[..0] == b[..0];
    }
    if k :| 0 <= k < |a| && k < |b| && a[..k] == b[..k] && a[k] < b[k] {
      if k > 0 {
        SameHead(a, b, k);
      }
    }
  }
}
