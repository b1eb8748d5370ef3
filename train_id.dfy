/**
 * The train-ID format check `trainUID.match(/^[A-Z]\d{5}$/)`.
 *
 * The regular expression is modelled as JavaScript evaluates it: `match` with a
 * non-global pattern tries each start index from 0 upwards and reports the first
 * one at which the pattern matches. Without the `m` flag, `^` holds only at index 0
 * and `$` only at the end of the input (not before a trailing newline), and `\d`
 * is the ASCII class `0-9`.
 */
module TrainId {
  import opened Js

  /** The single-character classes the pattern uses. */
  datatype CharClass = UpperLetter | Digit

  predicate InClass(c: char, k: CharClass)
  {
    match k
    case UpperLetter => 'A' <= c <= 'Z'
    case Digit => '0' <= c <= '9'
  }

  /** A pattern made of optional anchors around a fixed sequence of character classes. */
  datatype Pattern = Pattern(anchoredStart: bool, atoms: seq<CharClass>, anchoredEnd: bool)

  /** `/^[A-Z]\d{5}$/` */
  const TrainUidPattern := Pattern(true, [UpperLetter, Digit, Digit, Digit, Digit, Digit], true)

  /** The atoms match the characters of `s` from index `i` on, one character each. */
  predicate AtomsMatchAt(atoms: seq<CharClass>, s: string, i: nat)
    decreases |atoms|
  {
    if atoms == [] then i <= |s|
    else i < |s| && InClass(s[i], atoms[0]) && AtomsMatchAt(atoms[1..], s, i + 1)
  }

  /** A match attempt of `p` at start index `i` succeeds. */
  predicate MatchAt(p: Pattern, s: string, i: nat)
  {
    && i <= |s|
    && (p.anchoredStart ==> i == 0)
    && AtomsMatchAt(p.atoms, s, i)
    && (p.anchoredEnd ==> i + |p.atoms| == |s|)
  }

  /** The search `RegExp.prototype.exec` performs from index `from`: the first start index that matches, if any. */
  function Exec(p: Pattern, s: string, from: nat): (r: Option<nat>)
    requires from <= |s|
    decreases |s| - from
    ensures r.Some? ==> from <= r.value <= |s| && MatchAt(p, s, r.value)
    ensures r.Some? ==> forall j :: from <= j < r.value ==> !MatchAt(p, s, j)
    ensures r.None? ==> forall j :: from <= j <= |s| ==> !MatchAt(p, s, j)
  {
    if MatchAt(p, s, from) then Some(from)
    else if from == |s| then None
    else Exec(p, s, from + 1)
  }

  /** `s.match(p)` is not `null`. */
  predicate Matches(p: Pattern, s: string)
  {
    Exec(p, s, 0).Some?
  }

  /** The character-level reading of the format: one letter `A`-`Z`, then exactly five digits `0`-`9`. */
  predicate IsValidTrainUid(s: string)
  {
    |s| == 6 && 'A' <= s[0] <= 'Z' && forall k :: 1 <= k < 6 ==> '0' <= s[k] <= '9'
  }

  lemma {:induction false} AtomsMatchAtIff(atoms: seq<CharClass>, s: string, i: nat)
    ensures AtomsMatchAt(atoms, s, i) <==>
              i + |atoms| <= |s| && forall j :: 0 <= j < |atoms| ==> InClass(s[i + j], atoms[j])
    decreases |atoms|
  {
    if atoms != [] {
      AtomsMatchAtIff(atoms[1..], s, i + 1);
      if i + |atoms| <= |s| && forall j :: 0 <= j < |atoms| ==> InClass(s[i + j], atoms[j]) {
        assert InClass(s[i + 0], atoms[0]);
        forall j | 0 <= j < |atoms[1..]| ensures InClass(s[(i + 1) + j], atoms[1..][j]) {
          assert InClass(s[i + (j + 1)], atoms[j + 1]);
        }
        assert AtomsMatchAt(atoms[1..], s, i + 1);
      }
      if AtomsMatchAt(atoms, s, i) {
        assert i + |atoms| <= |s|;
        forall j | 0 <= j < |atoms| ensures InClass(s[i + j], atoms[j]) {
          if j > 0 {
            assert InClass(s[i + 1 + (j - 1)], atoms[1..][j - 1]);
          }
        }
      }
    }
  }

  /** A pattern anchored at both ends matches exactly the strings of its length whose characters are in their classes. */
  lemma {:induction false} AnchoredMatchIff(p: Pattern, s: string)
    requires p.anchoredStart && p.anchoredEnd
    ensures Matches(p, s) <==>
              |s| == |p.atoms| && forall j :: 0 <= j < |s| ==> InClass(s[j], p.atoms[j])
  {
    AtomsMatchAtIff(p.atoms, s, 0);
    if Matches(p, s) {
      var i := Exec(p, s, 0).value;
      assert MatchAt(p, s, i);
      assert i == 0;
      forall j | 0 <= j < |s| ensures InClass(s[j], p.atoms[j]) {
        assert InClass(s[0 + j], p.atoms[j]);
      }
    }
    if |s| == |p.atoms| && forall j :: 0 <= j < |s| ==> InClass(s[j], p.atoms[j]) {
      forall j | 0 <= j < |p.atoms| ensures InClass(s[0 + j], p.atoms[j]) {
      }
      assert MatchAt(p, s, 0);
    }
  }

  /** The regular-expression check accepts exactly the IDs of the character-level format. */
  lemma MatchesIffValid(s: string)
    ensures Matches(TrainUidPattern, s) <==> IsValidTrainUid(s)
  {
    var p := TrainUidPattern;
    AnchoredMatchIff(p, s);
    if |s| == 6 {
      assert (forall j :: 0 <= j < |s| ==> InClass(s[j], p.atoms[j])) <==>
             ('A' <= s[0] <= 'Z' && forall k :: 1 <= k < 6 ==> '0' <= s[k] <= '9');
    }
  }

  /** The format on sample inputs, including the anchor behaviour at a trailing newline. */
  lemma TrainUidExamples()
    ensures Matches(TrainUidPattern, "G12345")
    ensures !Matches(TrainUidPattern, "g12345")
    ensures !Matches(TrainUidPattern, "G1234")
    ensures !Matches(TrainUidPattern, "G123456")
    ensures !Matches(TrainUidPattern, "XG12345")
    ensures !Matches(TrainUidPattern, "G12345\n")
  {
    MatchesIffValid("G12345");
    MatchesIffValid("g12345");
    MatchesIffValid("G1234");
    MatchesIffValid("G123456");
    MatchesIffValid("XG12345");
    MatchesIffValid("G12345\n");
  }
}
