/**
 * The checks of the feature script: the roll-number format
 * `/^CB\.SC\.U4[A-Z]{3}\d{5}$/i` with its table of cases, and the
 * "visit without a hostel" predicate.
 */
module FeatureChecks {
  import opened Wrappers
  import opened Model
  import opened Seqs
  import opened Store
  import JsText
  import ExpressVisits

  /** The `i` flag's folding: ASCII lower case to upper case, every other character unchanged. */
  function Fold(c: char): char {
    if 'a' <= c <= 'z' then (c as int - 'a' as int + 'A' as int) as char else c
  }

  /** One regular-expression element: a literal, `[A-Z]` or `\d`. */
  datatype CharClass = Exactly(c: char) | Letter | Digit

  /** An element repeated a fixed number of times (`{3}`, `{5}`, or once). */
  datatype Piece = Piece(cls: CharClass, count: nat)

  /** How a character matches an element under the `i` flag. */
  predicate ClassMatches(cls: CharClass, c: char) {
    match cls
    case Exactly(p) => Fold(c) == Fold(p)
    case Letter => 'A' <= Fold(c) <= 'Z'
    case Digit => '0' <= c <= '9'
  }

  /** Anchored at both ends (`^…$`): the pieces consume the whole string in order. */
  predicate MatchesAll(pattern: seq<Piece>, s: string)
    decreases |pattern|
  {
    if |pattern| == 0 then |s| == 0
    else
      var p := pattern[0];
      && p.count <= |s|
      && (forall k :: 0 <= k < p.count ==> ClassMatches(p.cls, s[k]))
      && MatchesAll(pattern[1..], s[p.count..])
  }

  const Prefix: string := "CB.SC.U4"

  /** The pattern: the eight literal characters of the prefix, then three letters and five digits. */
  const RollNumberPattern: seq<Piece> := Literals(Prefix) + [Piece(Letter, 3), Piece(Digit, 5)]

  /** `rollNumberRegex.test(s)`. */
  predicate IsRollNumber(s: string) {
    MatchesAll(RollNumberPattern, s)
  }

  /** The format in words: 16 characters, the prefix in either case, three ASCII letters, five digits. */
  predicate RollNumberShape(s: string) {
    && |s| == 16
    && (forall k :: 0 <= k < 8 ==> Fold(s[k]) == Prefix[k])
    && (forall k :: 8 <= k < 11 ==> 'A' <= Fold(s[k]) <= 'Z')
    && (forall k :: 11 <= k < 16 ==> '0' <= s[k] <= '9')
  }

  /** A run of single-character literals matches exactly the strings that fold to it, then the rest. */
  lemma {:induction false} LiteralsMatch(lits: string, rest: seq<Piece>, s: string)
    requires forall k :: 0 <= k < |lits| ==> Fold(lits[k]) == lits[k]
    ensures MatchesAll(Literals(lits) + rest, s) <==>
      |lits| <= |s| && (forall k :: 0 <= k < |lits| ==> Fold(s[k]) == lits[k]) && MatchesAll(rest, s[|lits|..])
    decreases |lits|
  {
    if |lits| > 0 {
      var pat := Literals(lits) + rest;
      assert pat[0] == Piece(Exactly(lits[0]), 1);
      assert pat[1..] == Literals(lits[1..]) + rest;
      if |s| > 0 {
        LiteralsMatch(lits[1..], rest, s[1..]);
        if |lits| <= |s| {
          assert s[1..][|lits| - 1..] == s[|lits|..];
        }
        if MatchesAll(pat, s) {
          forall k | 0 <= k < |lits| ensures Fold(s[k]) == lits[k] {
            if k > 0 { assert s[k] == s[1..][k - 1]; }
          }
        }
        if |lits| <= |s| && (forall k :: 0 <= k < |lits| ==> Fold(s[k]) == lits[k]) && MatchesAll(rest, s[|lits|..]) {
          forall k | 0 <= k < |lits| - 1 ensures Fold(s[1..][k]) == lits[1..][k] {
            assert s[1..][k] == s[k + 1];
          }
        }
      }
    } else {
      assert Literals(lits) + rest == rest;
    }
  }

  /** One single-character literal piece per character. */
  function Literals(lits: string): (r: seq<Piece>)
    ensures |r| == |lits|
    ensures forall k :: 0 <= k < |lits| ==> r[k] == Piece(Exactly(lits[k]), 1)
  {
    if |lits| == 0 then [] else [Piece(Exactly(lits[0]), 1)] + Literals(lits[1..])
  }

  /** `[A-Z]{3}\d{5}$`: three letters, five digits, nothing after. */
  lemma TailMatch(t: string)
    ensures MatchesAll([Piece(Letter, 3), Piece(Digit, 5)], t) <==>
      |t| == 8 && (forall k :: 0 <= k < 3 ==> 'A' <= Fold(t[k]) <= 'Z') && (forall k :: 3 <= k < 8 ==> '0' <= t[k] <= '9')
  {
    var tail := [Piece(Letter, 3), Piece(Digit, 5)];
    assert tail[1..] == [Piece(Digit, 5)];
    assert [Piece(Digit, 5)][1..] == [];
    if |t| >= 3 {
      var u := t[3..];
      assert forall k :: 3 <= k < |t| ==> t[k] == u[k - 3];
      if |u| >= 5 {
        assert |u[5..]| == |t| - 8;
      }
    }
  }

  /** The regular expression accepts exactly the strings of the described shape. */
  lemma RollNumberIffShape(s: string)
    ensures IsRollNumber(s) <==> RollNumberShape(s)
  {
    PrefixIsFolded();
    LiteralsMatch(Prefix, [Piece(Letter, 3), Piece(Digit, 5)], s);
    if |s| >= 8 {
      var t := s[8..];
      TailMatch(t);
      assert forall k :: 8 <= k < |s| ==> s[k] == t[k - 8];
    }
  }

  lemma PrefixIsFolded()
    ensures forall k :: 0 <= k < |Prefix| ==> Fold(Prefix[k]) == Prefix[k]
  {
  }

  /** Every accepted string has length 16. */
  lemma AcceptedLength(s: string)
    requires IsRollNumber(s)
    ensures |s| == 16
  {
    RollNumberIffShape(s);
  }

  /** Folding the case of every character changes no verdict. */
  lemma CaseInsensitive(s: string, s': string)
    requires |s| == |s'| && forall k :: 0 <= k < |s| ==> Fold(s[k]) == Fold(s'[k])
    requires forall k :: 0 <= k < |s| ==> ('0' <= s[k] <= '9') == ('0' <= s'[k] <= '9')
    ensures IsRollNumber(s) <==> IsRollNumber(s')
  {
    RollNumberIffShape(s);
    RollNumberIffShape(s');
  }

  /** The seventh-and-eighth characters must fold to `U4`: a `U3` prefix is refused. */
  lemma WrongCohortRejected(s: string)
    requires |s| >= 8 && s[7] == '3'
    ensures !IsRollNumber(s)
  {
    RollNumberIffShape(s);
  }

  /** A prefix in upper or lower case, three letters and five digits are accepted. */
  lemma AcceptParts(prefix: string, letters: string, digits: string, s: string)
    requires prefix == Prefix || prefix == "cb.sc.u4"
    requires |letters| == 3 && forall k :: 0 <= k < 3 ==> 'A' <= Fold(letters[k]) <= 'Z'
    requires |digits| == 5 && forall k :: 0 <= k < 5 ==> '0' <= digits[k] <= '9'
    requires s == prefix + letters + digits
    ensures IsRollNumber(s)
  {
    assert forall k :: 0 <= k < 8 ==> Fold(prefix[k]) == Prefix[k];
    assert forall k :: 0 <= k < 8 ==> s[k] == prefix[k];
    assert forall k :: 8 <= k < 11 ==> s[k] == letters[k - 8];
    assert forall k :: 11 <= k < 16 ==> s[k] == digits[k - 11];
    RollNumberIffShape(s);
  }

  /** The accepted cases of the script's table, upper and lower case alike. */
  lemma RollNumberTableAccepted()
    ensures IsRollNumber("CB.SC.U4CSE23519") && IsRollNumber("CB.SC.U4ECE12345")
    ensures IsRollNumber("CB.SC.U4MEC98765") && IsRollNumber("cb.sc.u4cse23519")
  {
    AcceptParts(Prefix, "CSE", "23519", "CB.SC.U4CSE23519");
    AcceptParts(Prefix, "ECE", "12345", "CB.SC.U4ECE12345");
    AcceptParts(Prefix, "MEC", "98765", "CB.SC.U4MEC98765");
    AcceptParts("cb.sc.u4", "cse", "23519", "cb.sc.u4cse23519");
  }

  /** The refused cases: two or four letters, four or six digits, `U3`. */
  lemma RollNumberTableRejected()
    ensures !IsRollNumber("CB.SC.U4CS23519") && !IsRollNumber("CB.SC.U4CSEE23519")
    ensures !IsRollNumber("CB.SC.U4CSE2351") && !IsRollNumber("CB.SC.U4CSE235190")
    ensures !IsRollNumber("CB.SC.U3CSE23519")
  {
    AcceptedLengthContra("CB.SC.U4CS23519");
    AcceptedLengthContra("CB.SC.U4CSEE23519");
    AcceptedLengthContra("CB.SC.U4CSE2351");
    AcceptedLengthContra("CB.SC.U4CSE235190");
    WrongCohortRejected("CB.SC.U3CSE23519");
  }

  lemma AcceptedLengthContra(s: string)
    requires |s| != 16
    ensures !IsRollNumber(s)
  {
    RollNumberIffShape(s);
  }

  /** `!v.student?.hostelName || v.student.hostelName.trim() === ''`. */
  predicate Unassigned(db: Db, v: VisitRequest) {
    var s := StudentOf(db, v);
    s.None? || JsText.Trim(s.value.hostelName) == ""
  }

  /** The visits the script warns about. */
  function UnassignedVisits(db: Db): seq<VisitRequest> {
    Filter(db.visits, (v: VisitRequest) => Unassigned(db, v))
  }

  /** A visit is unassigned exactly when its student is missing or the hostel name is all white space. */
  lemma UnassignedIffBlank(db: Db, v: VisitRequest)
    ensures Unassigned(db, v) <==>
      StudentOf(db, v).None? || forall k :: 0 <= k < |StudentOf(db, v).value.hostelName| ==> JsText.IsJsWhitespace(StudentOf(db, v).value.hostelName[k])
  {
    if StudentOf(db, v).Some? {
      JsText.TrimEmptyIffBlank(StudentOf(db, v).value.hostelName);
    }
  }

  /** Such a visit appears under no hostel filter whose name is not blank (the script's warning). */
  lemma UnassignedInNoHostel(db: Db, v: VisitRequest, hostel: string)
    requires v in UnassignedVisits(db)
    requires JsText.Trim(hostel) != ""
    ensures !ExpressVisits.InHostel(db, v, hostel)
  {
  }
}
