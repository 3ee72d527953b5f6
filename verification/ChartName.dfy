/**
 Chart names of deployments: any project name becomes a label of section 2.1 of RFC 1123, of at most
 53 characters.
 */
module ChartName {

  const MAX_LENGTH := 53

  predicate IsLabelRune(c: char) { 'a' <= c <= 'z' || '0' <= c <= '9' || c == '-' }

  predicate LabelRunes(s: string) { forall i :: 0 <= i < |s| ==> IsLabelRune(s[i]) }

  predicate HasDouble(s: string) { exists i :: 0 <= i < |s| - 1 && s[i] == '-' && s[i + 1] == '-' }

  /** Non-empty, of the right length and characters, no leading, trailing or doubled hyphen. */
  predicate IsLabel(s: string) {
    && 0 < |s| <= MAX_LENGTH && LabelRunes(s) && !HasDouble(s)
    && s[0] != '-' && s[|s| - 1] != '-'
  }

  /** Lowercasing maps runes to runes and leaves lowercase letters, digits and hyphens alone. */
  ghost predicate IsLowering(lower: char -> char) {
    forall c :: IsLabelRune(c) ==> lower(c) == c
  }

  function AsciiLower(c: char): char { if 'A' <= c <= 'Z' then c + ' ' else c }

  /** Lowercasing the letters of ASCII is one such map. */
  lemma {:induction false} AsciiLowers()
    ensures IsLowering(AsciiLower)
  {
  }

  /** Replaces pairs of hyphens by one, from the left, in one pass. */
  function OnePass(s: string): (r: string)
    ensures |r| <= |s|
  {
    if |s| < 2 then s
    else if s[0] == '-' && s[1] == '-' then ['-'] + OnePass(s[2..])
    else [s[0]] + OnePass(s[1..])
  }

  lemma {:induction false} OnePassShortens(s: string)
    ensures if HasDouble(s) then |OnePass(s)| < |s| else OnePass(s) == s
  {
    if |s| >= 2 && !(s[0] == '-' && s[1] == '-') {
      OnePassShortens(s[1..]);
      var rest := s[1..];
      if HasDouble(s) {
        var i :| 0 <= i < |s| - 1 && s[i] == '-' && s[i + 1] == '-';
        assert rest[i - 1] == '-' && rest[i] == '-';
      } else {
        forall i | 0 <= i < |rest| - 1 ensures !(rest[i] == '-' && rest[i + 1] == '-') {
          assert rest[i] == s[i + 1] && rest[i + 1] == s[i + 2];
        }
        assert s == [s[0]] + rest;
      }
    }
  }

  lemma {:induction false} OnePassKeepsRunes(s: string)
    requires LabelRunes(s)
    ensures LabelRunes(OnePass(s))
  {
    if |s| >= 2 {
      if s[0] == '-' && s[1] == '-' {
        OnePassKeepsRunes(s[2..]);
      } else {
        OnePassKeepsRunes(s[1..]);
      }
    }
  }

  // ---------------------------------------------------------------- what is kept of a name

  /** The letters and digits of a label. */
  function Letters(s: string): string {
    if s == "" then "" else Letters(s[..|s| - 1]) + if s[|s| - 1] == '-' then "" else [s[|s| - 1]]
  }

  /** The lowercase letters and digits of a name, once it is lowercased. */
  function LoweredLetters(name: string, lower: char -> char): string {
    if name == "" then ""
    else
      var c := lower(name[|name| - 1]);
      LoweredLetters(name[..|name| - 1], lower) + if 'a' <= c <= 'z' || '0' <= c <= '9' then [c] else ""
  }

  lemma {:induction false} LettersConcat(a: string, b: string)
    ensures Letters(a + b) == Letters(a) + Letters(b)
    decreases |b|
  {
    if b == "" {
      assert a + b == a;
    } else {
      assert (a + b)[..|a + b| - 1] == a + b[..|b| - 1];
      LettersConcat(a, b[..|b| - 1]);
    }
  }

  lemma {:induction false} HyphensHaveNone(s: string)
    requires forall i :: 0 <= i < |s| ==> s[i] == '-'
    ensures Letters(s) == ""
    decreases |s|
  {
    if s != "" {
      HyphensHaveNone(s[..|s| - 1]);
    }
  }

  lemma {:induction false} LettersOfRune(c: char)
    ensures Letters([c]) == if c == '-' then "" else [c]
  {
    assert [c][..0] == "";
  }

  lemma {:induction false} OnePassKeepsLetters(s: string)
    ensures Letters(OnePass(s)) == Letters(s)
  {
    if |s| >= 2 {
      hide Letters;
      if s[0] == '-' && s[1] == '-' {
        OnePassKeepsLetters(s[2..]);
        LettersConcat("-", OnePass(s[2..]));
        LettersConcat("--", s[2..]);
        assert s == "--" + s[2..];
        HyphensHaveNone("-");
        HyphensHaveNone("--");
      } else {
        OnePassKeepsLetters(s[1..]);
        LettersConcat([s[0]], OnePass(s[1..]));
        LettersConcat([s[0]], s[1..]);
        assert s == [s[0]] + s[1..];
      }
    }
  }

  lemma {:induction false} PartOf(s: string, i: nat, j: nat)
    requires i <= j <= |s| && LabelRunes(s) && !HasDouble(s)
    ensures LabelRunes(s[i..j]) && !HasDouble(s[i..j])
  {
    var part := s[i..j];
    forall k | 0 <= k < |part| - 1 ensures !(part[k] == '-' && part[k + 1] == '-') {
      assert part[k] == s[i + k] && part[k + 1] == s[i + k + 1];
    }
  }

  lemma {:induction false} HasLetter(s: string)
    ensures s == "" ==> Letters(s) == ""
    ensures s != "" && s[|s| - 1] != '-' ==> Letters(s) != ""
  {
  }

  lemma {:induction false} CutAt(s: string, n: nat)
    requires n <= |s|
    ensures Letters(s[..n]) <= Letters(s)
  {
    hide Letters;
    assert s == s[..n] + s[n..];
    LettersConcat(s[..n], s[n..]);
  }

  lemma {:induction false} NoLetters(name: string, lower: char -> char)
    ensures Letters("") == LoweredLetters(name[..0], lower)
  {
  }

  /** One more rune of a name, and what it is replaced by. */
  lemma {:induction false} LoweredStep(name: string, lower: char -> char, i: nat, r: string)
    requires i < |name| && Letters(r) == LoweredLetters(name[..i], lower)
    ensures var c := lower(name[i]);
      Letters(r + [if IsLabelRune(c) then c else '-']) == LoweredLetters(name[..i + 1], lower)
  {
    var c := lower(name[i]);
    assert name[..i + 1][..i] == name[..i];
    hide Letters;
    LettersConcat(r, [if IsLabelRune(c) then c else '-']);
    LettersOfRune(if IsLabelRune(c) then c else '-');
  }

  method Replace(name: string, lower: char -> char) returns (r: string)
    requires IsLowering(lower)
    ensures LabelRunes(r) && |r| == |name| && (LabelRunes(name) ==> r == name)
    ensures Letters(r) == LoweredLetters(name, lower)
  {
    hide Letters, LoweredLetters;
    r := "";
    NoLetters(name, lower);
    for i := 0 to |name|
      invariant |r| == i && LabelRunes(r)
      invariant forall k :: 0 <= k < i && IsLabelRune(name[k]) ==> r[k] == name[k]
      invariant Letters(r) == LoweredLetters(name[..i], lower)
    {
      var c := lower(name[i]);
      LoweredStep(name, lower, i, r);
      r := r + [if IsLabelRune(c) then c else '-'];
    }
    assert name[..|name|] == name;
  }

  lemma {:induction false} OneHyphen(s: string, end: nat)
    requires end <= |s| && forall k :: end <= k < |s| ==> s[k] == '-'
    ensures end < |s| - 1 ==> HasDouble(s)
  {
    if end < |s| - 1 {
      assert s[end] == '-' && s[end + 1] == '-';
    }
  }

  lemma {:induction false} CutRight(s: string, end: nat)
    requires end <= |s| && forall k :: end <= k < |s| ==> s[k] == '-'
    ensures Letters(s[..end]) == Letters(s)
  {
    hide Letters;
    assert s == s[..end] + s[end..];
    HyphensHaveNone(s[end..]);
    LettersConcat(s[..end], s[end..]);
  }

  lemma {:induction false} CutLeft(s: string, start: nat)
    requires start <= |s| && forall k :: 0 <= k < start ==> s[k] == '-'
    ensures Letters(s[start..]) == Letters(s)
  {
    hide Letters;
    assert s == s[..start] + s[start..];
    HyphensHaveNone(s[..start]);
    LettersConcat(s[..start], s[start..]);
  }

  method TrimRight(s: string) returns (r: string)
    requires LabelRunes(s) && !HasDouble(s)
    ensures LabelRunes(r) && !HasDouble(r) && r <= s
    ensures r != "" ==> r[|r| - 1] != '-'
    ensures s != "" && s[|s| - 1] != '-' ==> r == s
    ensures Letters(r) == Letters(s) && |r| >= |s| - 1
  {
    hide Letters;
    var end := |s|;
    while end > 0 && s[end - 1] == '-'
      invariant 0 <= end <= |s|
      invariant forall k :: end <= k < |s| ==> s[k] == '-'
      invariant s != "" && s[|s| - 1] != '-' ==> end == |s|
    {
      end := end - 1;
    }
    r := s[..end];
    PartOf(s, 0, end);
    OneHyphen(s, end);
    CutRight(s, end);
  }

  method TrimLeft(s: string) returns (r: string)
    requires LabelRunes(s) && !HasDouble(s)
    ensures LabelRunes(r) && !HasDouble(r) && |r| <= |s|
    ensures r != "" ==> r[0] != '-'
    ensures r != "" ==> r[|r| - 1] == s[|s| - 1]
    ensures s != "" && s[0] != '-' ==> r == s
    ensures Letters(r) == Letters(s)
  {
    hide Letters;
    var start := 0;
    while start < |s| && s[start] == '-'
      invariant start <= |s|
      invariant forall k :: 0 <= k < start ==> s[k] == '-'
      invariant s != "" && s[0] != '-' ==> start == 0
    {
      start := start + 1;
    }
    r := s[start..];
    PartOf(s, start, |s|);
    CutLeft(s, start);
  }

  /** Always a label, and a label is left as it is. The letters and digits of the lowercased name are kept in
      order, all of them unless the label has become too long; a name without any gets a fixed one. */
  method Normalize(name: string, lower: char -> char) returns (r: string)
    requires IsLowering(lower)
    ensures IsLabel(r)
    ensures IsLabel(name) ==> r == name
    ensures var letters := LoweredLetters(name, lower);
      if letters == "" then r == "luxo-app"
      else Letters(r) <= letters && (|r| < MAX_LENGTH - 1 ==> Letters(r) == letters)
  {
    hide Letters, LoweredLetters;
    r := Replace(name, lower);
    while HasDouble(r)
      invariant LabelRunes(r) && (IsLabel(name) ==> r == name) && Letters(r) == LoweredLetters(name, lower)
      decreases |r|
    {
      OnePassShortens(r);
      OnePassKeepsRunes(r);
      OnePassKeepsLetters(r);
      r := OnePass(r);
    }
    r := TrimLeft(r);
    r := TrimRight(r);
    if |r| > MAX_LENGTH {
      PartOf(r, 0, MAX_LENGTH);
      CutAt(r, MAX_LENGTH);
      r := TrimRight(r[..MAX_LENGTH]);
    }
    HasLetter(r);
    if r == "" {
      r := "luxo-app";
      assert IsLabel("luxo-app");
    }
  }

  /** Normalizing the result again changes nothing. */
  method NormalizeTwice(name: string, lower: char -> char) returns (once: string, twice: string)
    requires IsLowering(lower)
    ensures IsLabel(once) && twice == once
  {
    once := Normalize(name, lower);
    twice := Normalize(once, lower);
  }
}
