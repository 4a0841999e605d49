/** Machine names: printing the index into a name and reading it back. */
module Names {
  import opened FailureDomains

  const INT32_LIMIT: int := 0x8000_0000

  predicate IsDigit(c: char) { '0' <= c <= '9' }

  predicate AllDigits(s: string) { forall i :: 0 <= i < |s| ==> IsDigit(s[i]) }

  function Digit(n: nat): char
    requires n < 10
  {
    '0' + n as char
  }

  /** The decimal digits of a number, without a sign. */
  function Decimal(n: nat): (s: string)
    ensures s != [] && AllDigits(s)
  {
    if n < 10 then [Digit(n)]
    else Decimal(n / 10) + [Digit(n % 10)]
  }

  /** What the %d verb prints. */
  function Print(i: int): string {
    if i < 0 then "-" + Decimal(-i) else Decimal(i)
  }

  function DigitsValue(s: string): nat
    requires AllDigits(s)
  {
    if s == [] then 0
    else DigitsValue(s[..|s| - 1]) * 10 + (s[|s| - 1] as int - '0' as int)
  }

  /** Parsing a base 10 integer of 32 bits: an optional sign, then at least one
      digit and nothing else, within the range. */
  function ParseInt32(s: string): Option<int> {
    var signed := s != [] && (s[0] == '-' || s[0] == '+');
    var digits := if signed then s[1..] else s;
    if digits == [] || !AllDigits(digits) then None
    else
      var magnitude: int := DigitsValue(digits);
      var value := if signed && s[0] == '-' then -magnitude else magnitude;
      if -INT32_LIMIT <= value < INT32_LIMIT then Some(value) else None
  }

  /** The position after the last dash, or 0 if there is none. */
  function AfterLastDash(s: string): (p: nat)
    ensures p <= |s|
    ensures forall i :: p <= i < |s| ==> s[i] != '-'
    ensures p > 0 ==> s[p - 1] == '-'
  {
    if s == [] then 0
    else if s[|s| - 1] == '-' then |s|
    else AfterLastDash(s[..|s| - 1])
  }

  /** The index suffix of a machine name, if it has one. */
  function ParseIndex(name: string): Option<int> {
    ParseInt32(name[AfterLastDash(name)..])
  }

  datatype Labels = Labels(clusterID: Option<string>, role: Option<string>)

  datatype NameResult = Name(name: string) | MissingClusterIDLabel | MissingMachineRoleLabel

  /** The name of a new machine; random is the generated part. */
  function MachineName(prefix: string, labels: Labels, random: string, index: int): NameResult {
    if prefix != "" then Name(prefix + "-" + random + "-" + Print(index))
    else if labels.clusterID.None? then MissingClusterIDLabel
    else if labels.role.None? then MissingMachineRoleLabel
    else Name(labels.clusterID.value + "-" + labels.role.value + "-" + random + "-" + Print(index))
  }

  // ------------------------------------------------------------- properties

  lemma {:induction false} DecimalValue(n: nat)
    ensures DigitsValue(Decimal(n)) == n
  {
    if n < 10 {
      assert Decimal(n)[..0] == [];
    } else {
      DecimalValue(n / 10);
      var init := Decimal(n / 10);
      assert Decimal(n)[..|Decimal(n)| - 1] == init;
    }
  }

  lemma {:induction false} AfterDash(s: string, t: string)
    requires forall i :: 0 <= i < |t| ==> t[i] != '-'
    ensures AfterLastDash(s + "-" + t) == |s| + 1
  {
    var w := s + "-" + t;
    if t == [] {
      assert w[|w| - 1] == '-';
    } else {
      assert w[|w| - 1] == t[|t| - 1];
      assert w[..|w| - 1] == s + "-" + t[..|t| - 1];
      AfterDash(s, t[..|t| - 1]);
    }
  }

  /** Whatever precedes the last dash, digits after it are read as the index. */
  lemma ParseAfterDash(s: string, n: nat)
    ensures ParseIndex(s + "-" + Decimal(n)) == if n < INT32_LIMIT then Some(n) else None
  {
    var t := Decimal(n);
    forall i | 0 <= i < |t| ensures t[i] != '-' { assert IsDigit(t[i]); }
    AfterDash(s, t);
    assert (s + "-" + t)[|s| + 1..] == t;
    DecimalValue(n);
    assert IsDigit(t[0]);
  }

  /** Name round trip: the index of a name the provider makes reads back as the
      index it was made for exactly when that index is not negative; the dash
      of a negative index is taken for a separator. The prefix, labels and
      random part are arbitrary and may hold dashes and digits themselves. */
  lemma NameRoundTrip(prefix: string, labels: Labels, random: string, index: int)
    requires -INT32_LIMIT <= index < INT32_LIMIT
    requires MachineName(prefix, labels, random, index).Name?
    ensures ParseIndex(MachineName(prefix, labels, random, index).name) == Some(index) <==> index >= 0
  {
    var stem := if prefix != "" then prefix + "-" + random
                else labels.clusterID.value + "-" + labels.role.value + "-" + random;
    assert MachineName(prefix, labels, random, index).name == stem + "-" + Print(index);
    PrintRoundTrip(stem, index);
  }

  lemma PrintRoundTrip(stem: string, index: int)
    requires -INT32_LIMIT <= index < INT32_LIMIT
    ensures ParseIndex(stem + "-" + Print(index)) == Some(index) <==> index >= 0
  {
    if index >= 0 {
      ParseAfterDash(stem, index);
    } else {
      assert stem + "-" + Print(index) == (stem + "-") + "-" + Decimal(-index);
      ParseAfterDash(stem + "-", -index);
    }
  }

  /** Parsing never yields a negative index. */
  lemma ParsedIndexRange(name: string)
    ensures ParseIndex(name).Some? ==> 0 <= ParseIndex(name).value < INT32_LIMIT
  {
    var p := AfterLastDash(name);
    var suffix := name[p..];
    assert forall i :: 0 <= i < |suffix| ==> suffix[i] == name[p + i];
    if suffix != [] {
      assert suffix[0] == name[p] != '-';
    }
  }

  /** Which suffixes read as an index: digits, with or without a plus, whose
      value fits. */
  predicate ReadsAsIndex(suffix: string) {
    var digits := if suffix != "" && suffix[0] == '+' then suffix[1..] else suffix;
    digits != "" && AllDigits(digits) && DigitsValue(digits) < INT32_LIMIT
  }

  lemma SuffixRead(suffix: string)
    requires forall i :: 0 <= i < |suffix| ==> suffix[i] != '-'
    ensures ParseInt32(suffix).Some? <==> ReadsAsIndex(suffix)
    ensures AllDigits(suffix) && ReadsAsIndex(suffix) ==> ParseInt32(suffix) == Some(DigitsValue(suffix))
  {
    if AllDigits(suffix) && suffix != "" { assert IsDigit(suffix[0]); }
  }

  /** A name has an index exactly if what follows its last dash, or the whole
      name if it has none, reads as one. */
  lemma IndexIffRead(stem: string, suffix: string)
    requires forall i :: 0 <= i < |suffix| ==> suffix[i] != '-'
    ensures ParseIndex(stem + "-" + suffix).Some? <==> ReadsAsIndex(suffix)
    ensures ParseIndex(suffix).Some? <==> ReadsAsIndex(suffix)
  {
    AfterDash(stem, suffix);
    assert (stem + "-" + suffix)[|stem| + 1..] == suffix;
    NoDash(suffix);
    assert suffix[0..] == suffix;
    SuffixRead(suffix);
  }

  lemma {:induction false} NoDash(s: string)
    requires forall i :: 0 <= i < |s| ==> s[i] != '-'
    ensures AfterLastDash(s) == 0
  {
    if s != "" { NoDash(s[..|s| - 1]); }
  }

  /** A name is made exactly if there is a prefix or both labels; otherwise the
      first label missing is reported. It starts with the prefix, or with the
      labels. */
  lemma NameMade(prefix: string, labels: Labels, random: string, index: int)
    ensures var r := MachineName(prefix, labels, random, index);
            && (r.Name? <==> prefix != "" || (labels.clusterID.Some? && labels.role.Some?))
            && (r == MissingClusterIDLabel <==> prefix == "" && labels.clusterID.None?)
            && (r == MissingMachineRoleLabel <==> prefix == "" && labels.clusterID.Some? && labels.role.None?)
            && (prefix != "" ==> prefix + "-" <= r.name)
            && (r.Name? && prefix == "" ==> labels.clusterID.value + "-" + labels.role.value + "-" <= r.name)
  {
    if MachineName(prefix, labels, random, index).Name? {
      NameShape(prefix, labels, random, index);
      StartsWith(Stem(prefix, labels), random, "-" + Print(index));
    }
  }

  lemma StartsWith(a: string, b: string, c: string)
    ensures a <= a + b + c
  {
    assert a + b + c == a + (b + c);
  }

  /** New machines get new names: names made with different random parts, or for
      different indexes, differ. */
  lemma NamesDiffer(prefix: string, labels: Labels, random: string, index: int, random': string, index': int)
    requires 0 <= index < INT32_LIMIT && 0 <= index' < INT32_LIMIT
    requires MachineName(prefix, labels, random, index).Name?
    ensures MachineName(prefix, labels, random, index) == MachineName(prefix, labels, random', index')
            <==> random == random' && index == index'
  {
    NameRoundTrip(prefix, labels, random, index);
    NameRoundTrip(prefix, labels, random', index');
    if MachineName(prefix, labels, random, index) == MachineName(prefix, labels, random', index') {
      NameShape(prefix, labels, random, index);
      NameShape(prefix, labels, random', index);
      Middle(Stem(prefix, labels), random, random', "-" + Print(index));
    }
  }

  /** What comes before the random part of a name. */
  function Stem(prefix: string, labels: Labels): string
    requires prefix != "" || (labels.clusterID.Some? && labels.role.Some?)
  {
    if prefix != "" then prefix + "-" else labels.clusterID.value + "-" + labels.role.value + "-"
  }

  lemma NameShape(prefix: string, labels: Labels, random: string, index: int)
    requires MachineName(prefix, labels, random, index).Name?
    ensures MachineName(prefix, labels, random, index) == Name(Stem(prefix, labels) + random + ("-" + Print(index)))
  {
    if prefix == "" {
      var stem := labels.clusterID.value + "-" + labels.role.value + "-";
      assert stem + random + "-" + Print(index) == stem + random + ("-" + Print(index));
    } else {
      assert prefix + "-" + random + "-" + Print(index) == (prefix + "-") + random + ("-" + Print(index));
    }
  }

  lemma Middle(a: string, x: string, y: string, b: string)
    requires a + x + b == a + y + b
    ensures x == y
  {
    assert |a + x + b| == |a + y + b|;
    assert x == (a + x + b)[|a|..|a| + |x|];
    assert y == (a + y + b)[|a|..|a| + |y|];
  }
}
