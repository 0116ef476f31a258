/**
 * The browser's own checks on a form before it fires `submit` (the forms
 * of the planner carry no `noValidate`): an `<input type="email">` must hold
 * a valid e-mail address, a number input must respect its `min`, `max` and
 * step. A non-empty value that fails stops the submission, so the
 * component's handler never runs. An empty value fails only `required`.
 */
module ConstraintValidation {

  /** The position of the first `c` in `s`, or `|s|` when there is none. */
  function FirstIndex(s: string, c: char): (r: nat)
    ensures r <= |s|
    ensures r < |s| ==> s[r] == c
    ensures forall i :: 0 <= i < r ==> s[i] != c
  {
    if s == [] then 0
    else if s[0] == c then 0
    else 1 + FirstIndex(s[1..], c)
  }

  predicate IsAlnum(c: char) {
    'a' <= c <= 'z' || 'A' <= c <= 'Z' || '0' <= c <= '9'
  }

  /** A character the local part of an address may hold besides `.`. */
  predicate IsAtext(c: char) {
    IsAlnum(c) || c in "!#$%&'*+/=?^_`{|}~-"
  }

  /** One dot-separated label of the domain: 1 to 63 letters, digits and
      hyphens, neither starting nor ending with a hyphen. */
  predicate ValidLabel(l: string) {
    1 <= |l| <= 63 && l[0] != '-' && l[|l| - 1] != '-'
    && forall i :: 0 <= i < |l| ==> IsAlnum(l[i]) || l[i] == '-'
  }

  /** Labels separated by single dots. */
  predicate ValidDomain(d: string)
    decreases |d|
  {
    var i := FirstIndex(d, '.');
    ValidLabel(d[..i]) && (i == |d| || ValidDomain(d[i + 1..]))
  }

  /** A valid e-mail address in the sense of the HTML standard: a non-empty
      local part of atext and dots, one `@`, then a domain. Neither part
      may hold an `@`, so splitting at the first one decides it. */
  predicate ValidEmail(s: string) {
    var k := FirstIndex(s, '@');
    0 < k < |s|
    && (forall i :: 0 <= i < k ==> IsAtext(s[i]) || s[i] == '.')
    && ValidDomain(s[k + 1..])
  }

  lemma {:induction false} DomainHasNoAt(d: string)
    requires ValidDomain(d)
    ensures forall j :: 0 <= j < |d| ==> d[j] != '@'
    decreases |d|
  {
    var i := FirstIndex(d, '.');
    if i < |d| {
      DomainHasNoAt(d[i + 1..]);
      forall j | 0 <= j < |d|
        ensures d[j] != '@'
      {
        if j > i { assert d[j] == d[i + 1..][j - i - 1]; }
        else if j < i { assert d[j] == d[..i][j]; }
      }
    } else {
      forall j | 0 <= j < |d|
        ensures d[j] != '@'
      {
        assert d[j] == d[..i][j];
      }
    }
  }

  /** A valid address holds exactly one `@`, neither first nor last. */
  lemma ValidEmailHasOneAt(s: string)
    requires ValidEmail(s)
    ensures s[0] != '@' && s[|s| - 1] != '@'
    ensures exists k :: 0 <= k < |s| && s[k] == '@'
    ensures forall i, j :: 0 <= i < |s| && 0 <= j < |s| && s[i] == '@' && s[j] == '@' ==> i == j
  {
    var k := FirstIndex(s, '@');
    var d := s[k + 1..];
    DomainHasNoAt(d);
    assert forall j :: k < j < |s| ==> s[j] == d[j - k - 1];
    assert d[..FirstIndex(d, '.')] != [];
  }

  /** FirstIndex is the position before which no `c` occurs. */
  lemma {:induction false} FirstIndexIs(s: string, c: char, k: nat)
    requires k <= |s| && (k < |s| ==> s[k] == c)
    requires forall i :: 0 <= i < k ==> s[i] != c
    ensures FirstIndex(s, c) == k
    decreases k
  {
    if k > 0 {
      FirstIndexIs(s[1..], c, k - 1);
    }
  }

  lemma ValidEmailExample()
    ensures ValidEmail("ana@uni.edu")
  {
    var s := "ana@uni.edu";
    var d := s[4..];
    var e := d[4..];
    assert d == "uni.edu" && e == "edu";
    FirstIndexIs(e, '.', 3);
    assert e[..3] == e;
    assert ValidLabel(e);
    assert ValidDomain(e);
    FirstIndexIs(d, '.', 3);
    assert ValidLabel(d[..3]);
    assert ValidDomain(d);
    FirstIndexIs(s, '@', 3);
    assert forall i :: 0 <= i < 3 ==> IsAtext(s[i]);
  }

  /** No `@`, nothing after it, nothing before it. */
  lemma MissingPartExamples()
    ensures !ValidEmail("ana")
    ensures !ValidEmail("ana@")
    ensures !ValidEmail("@uni.edu")
  {
    FirstIndexIs("ana", '@', 3);
    FirstIndexIs("ana@", '@', 3);
    FirstIndexIs("@uni.edu", '@', 0);
  }

  /** A label starting with a hyphen. */
  lemma HyphenLabelExample()
    ensures !ValidEmail("ana@-uni.edu")
  {
    var s := "ana@-uni.edu";
    FirstIndexIs(s, '@', 3);
    var d := s[4..];
    FirstIndexIs(d, '.', 4);
    assert d[..4][0] == '-';
    assert !ValidLabel(d[..4]);
    assert !ValidDomain(d);
  }

  /** An empty label between two dots. */
  lemma EmptyLabelExample()
    ensures !ValidEmail("ana@uni..edu")
  {
    var s := "ana@uni..edu";
    FirstIndexIs(s, '@', 3);
    var d := s[4..];
    FirstIndexIs(d, '.', 3);
    var e := d[4..];
    FirstIndexIs(e, '.', 0);
  }

  /** A number input with `min` and the default step of 1 counted from
      `min`: the value is at least `min` and a whole number. */
  predicate WholeAtLeast(x: real, min: int) {
    x >= min as real && x == x.Floor as real
  }

  /** A number input holding an integer, with `min` and `max`. */
  predicate InRange(x: int, min: int, max: int) {
    min <= x <= max
  }
}
