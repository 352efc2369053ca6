/** Event ids are UUIDv7 texts (section 5.7 of RFC 9562), compared as strings; the
    empty string stands for "no event". Here: string order is numeric order. */
module EventIds {
  import opened Order

  predicate IsHexDigit(c: char) {
    '0' <= c <= '9' || 'a' <= c <= 'f'
  }

  function Digit(c: char): (d: nat)
    ensures d < 16
  {
    if '0' <= c <= '9' then (c - '0') as nat
    else if 'a' <= c <= 'f' then (c - 'a') as nat + 10
    else 0
  }

  /** 36 characters, lowercase hex but for the four hyphens. */
  predicate IsEventId(s: string) {
    |s| == 36 && forall i :: 0 <= i < 36 ==> if i == 8 || i == 13 || i == 18 || i == 23 then s[i] == '-' else IsHexDigit(s[i])
  }

  predicate SameShape(a: string, b: string) {
    |a| == |b| && forall i :: 0 <= i < |a| ==> (IsHexDigit(a[i]) && IsHexDigit(b[i])) || (a[i] == '-' && b[i] == '-')
  }

  function Power(n: nat): (p: nat)
    ensures p > 0
  {
    if n == 0 then 1 else 16 * Power(n - 1)
  }

  /** The number a text spells in base 16, a hyphen counting as a zero digit. */
  function Number(s: string): nat {
    if s == "" then 0 else Digit(s[0]) * Power(|s| - 1) + Number(s[1..])
  }

  /** 0 for the empty id, and above it one more than the number spelt. */
  function Rank(s: string): nat {
    if s == "" then 0 else 1 + Number(s)
  }

  lemma {:induction false} NumberBound(s: string)
    ensures Number(s) < Power(|s|)
  {
    if s != "" {
      NumberBound(s[1..]);
      Multiply(Digit(s[0]), 15, Power(|s| - 1));
    }
  }

  lemma Multiply(a: nat, b: nat, p: nat)
    requires a <= b
    ensures a * p <= b * p
  {
  }

  lemma LeadingDigitDecides(da: nat, db: nat, na: nat, nb: nat, p: nat)
    requires na < p && nb < p
    ensures da < db ==> da * p + na < db * p + nb
    ensures db < da ==> db * p + nb < da * p + na
  {
    if da < db {
      Multiply(da + 1, db, p);
    } else if db < da {
      Multiply(db + 1, da, p);
    }
  }

  lemma {:induction false} ShapeOrder(a: string, b: string)
    requires SameShape(a, b)
    ensures Less(a, b) <==> Number(a) < Number(b)
    ensures a == b <==> Number(a) == Number(b)
  {
    if a != "" {
      var p := Power(|a| - 1);
      NumberBound(a[1..]);
      NumberBound(b[1..]);
      LeadingDigitDecides(Digit(a[0]), Digit(b[0]), Number(a[1..]), Number(b[1..]), p);
      assert a[0] < b[0] <==> Digit(a[0]) < Digit(b[0]);
      assert a == [a[0]] + a[1..] && b == [b[0]] + b[1..];
      assert SameShape(a[1..], b[1..]);
      ShapeOrder(a[1..], b[1..]);
    }
  }

  /** Comparing two event ids, or an event id and the empty id, as strings is
      comparing their ranks as numbers, and distinct ids have distinct ranks. */
  lemma EventIdOrder(a: string, b: string)
    requires a == "" || IsEventId(a)
    requires b == "" || IsEventId(b)
    ensures Less(a, b) <==> Rank(a) < Rank(b)
    ensures a == b <==> Rank(a) == Rank(b)
  {
    if a != "" && b != "" {
      assert SameShape(a, b);
      ShapeOrder(a, b);
    }
  }
}
