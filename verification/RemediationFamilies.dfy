/** Remediations whose names differ only in numbers belong together: applying or unapplying one
    sets the decision of all. */
module RemediationFamilies {
  import opened Options

  predicate IsDigit(c: char) {
    '0' <= c <= '9'
  }

  function DropDigits(s: string): (rest: string)
    ensures |rest| <= |s|
    ensures rest != [] ==> !IsDigit(rest[0])
  {
    if s != [] && IsDigit(s[0]) then DropDigits(s[1..]) else s
  }

  predicate StartsWithNumber(s: string) {
    |s| > 1 && s[0] == '-' && IsDigit(s[1])
  }

  // The name without any dash-and-number, wherever it stands.
  function Strip(s: string): string
    decreases |s|
  {
    if s == [] then []
    else if StartsWithNumber(s) then Strip(DropDigits(s[1..]))
    else [s[0]] + Strip(s[1..])
  }

  predicate SameFamily(a: string, b: string) {
    Strip(a) == Strip(b)
  }

  predicate HasNumber(s: string) {
    exists i | 0 <= i < |s| - 1 :: s[i] == '-' && '0' <= s[i + 1] <= '9'
  }

  // Removing a number never makes up a new one.
  lemma {:induction false} NoNumberIsLeft(s: string)
    ensures !HasNumber(Strip(s))
    ensures s != [] && !IsDigit(s[0]) && Strip(s) != [] ==> !IsDigit(Strip(s)[0])
    decreases |s|
  {
    if s == [] {
    } else if StartsWithNumber(s) {
      NoNumberIsLeft(DropDigits(s[1..]));
    } else {
      NoNumberIsLeft(s[1..]);
      var rest := Strip(s[1..]);
      forall i | 0 <= i < |Strip(s)| - 1
        ensures !(Strip(s)[i] == '-' && IsDigit(Strip(s)[i + 1]))
      {
        assert i > 0 ==> !(rest[i - 1] == '-' && IsDigit(rest[i - 1 + 1]));
      }
    }
  }

  lemma {:induction false} StripKeepsNumberless(s: string)
    requires !HasNumber(s)
    ensures Strip(s) == s
    decreases |s|
  {
    if s == [] {
    } else {
      assert s[0] == '-' && |s| > 1 ==> !IsDigit(s[0 + 1]);
      forall i | 0 <= i < |s[1..]| - 1
        ensures !(s[1..][i] == '-' && IsDigit(s[1..][i + 1]))
      {
        assert !(s[i + 1] == '-' && IsDigit(s[i + 1 + 1]));
      }
      StripKeepsNumberless(s[1..]);
    }
  }

  // So a name belongs to the family of its stripped name.
  lemma StripIsIdempotent(s: string)
    ensures Strip(Strip(s)) == Strip(s)
  {
    NoNumberIsLeft(s);
    StripKeepsNumberless(Strip(s));
  }

  lemma StartAppend(s: string, t: string)
    requires s != [] && (t != [] ==> !IsDigit(t[0]))
    ensures StartsWithNumber(s + t) == StartsWithNumber(s)
    ensures (s + t)[0] == s[0] && (s + t)[1..] == s[1..] + t
  {
    assert |s| > 1 ==> (s + t)[1] == s[1];
    assert |s| == 1 && t != [] ==> (s + t)[1] == t[0];
  }

  lemma {:induction false} StripAppend(s: string, t: string)
    requires t != [] ==> !IsDigit(t[0])
    ensures Strip(s + t) == Strip(s) + Strip(t)
    decreases |s|
  {
    if s == [] {
      assert s + t == t;
    } else {
      StartAppend(s, t);
      var u := s + t;
      if StartsWithNumber(s) {
        DropAppend(s[1..], t);
        assert Strip(u) == Strip(DropDigits(s[1..]) + t);
        StripAppend(DropDigits(s[1..]), t);
      } else {
        assert Strip(u) == [s[0]] + Strip(s[1..] + t);
        StripAppend(s[1..], t);
      }
    }
  }

  lemma {:induction false} DropAppend(s: string, t: string)
    requires t != [] ==> !IsDigit(t[0])
    ensures DropDigits(s + t) == DropDigits(s) + t
    decreases |s|
  {
    if s == [] {
      assert s + t == t;
    } else {
      assert (s + t)[1..] == s[1..] + t;
      if IsDigit(s[0]) {
        DropAppend(s[1..], t);
      }
    }
  }

  lemma {:induction false} DigitsDrop(s: string)
    requires forall c | c in s :: IsDigit(c)
    ensures DropDigits(s) == []
  {
    if s == [] {
    } else {
      DigitsDrop(s[1..]);
    }
  }

  lemma {:induction false} NumberIsStripped(t: string, rest: string, back: string)
    requires StartsWithNumber(t) && t[1..] == rest && DropDigits(rest) == back
    ensures Strip(t) == Strip(back)
  {
  }

  lemma {:induction false} AllDigitsDrop(number: string, back: string)
    requires forall c | c in number :: IsDigit(c)
    requires back != [] ==> !IsDigit(back[0])
    ensures DropDigits(number + back) == back
  {
    DropAppend(number, back);
    DigitsDrop(number);
    assert [] + back == back;
  }

  lemma {:induction false} NumberStrips(number: string, back: string)
    requires number != [] && forall c | c in number :: IsDigit(c)
    requires back != [] ==> !IsDigit(back[0])
    ensures Strip("-" + number + back) == Strip(back)
  {
    var t, rest := "-" + number + back, number + back;
    assert t[1..] == rest && t[0] == '-' && t[1] == number[0];
    assert number[0] in number;
    AllDigitsDrop(number, back);
    NumberIsStripped(t, rest, back);
  }

  // A number in the middle of a name is ignored like one at its end.
  lemma NumberIsIgnoredAnywhere(front: string, number: string, back: string)
    requires number != [] && forall c | c in number :: '0' <= c <= '9'
    requires back != [] ==> !('0' <= back[0] <= '9')
    ensures SameFamily(front + "-" + number + back, front + back)
  {
    var t := "-" + number + back;
    assert front + "-" + number + back == front + t;
    StripAppend(front, t);
    StripAppend(front, back);
    NumberStrips(number, back);
  }

  /******* The suffix that is meant *******/

  // Remediations for several objects of one rule are told apart by a number at the end of the name.
  function TrimDigits(s: string): (t: string)
    ensures t <= s && forall c | c in s[|t|..] :: IsDigit(c)
    ensures t != [] ==> !IsDigit(t[|t| - 1])
  {
    if s != [] && IsDigit(s[|s| - 1]) then
      var t := TrimDigits(s[..|s| - 1]);
      assert s[|t|..] == s[..|s| - 1][|t|..] + [s[|s| - 1]];
      t
    else s
  }

  // The name without that number.
  function Base(s: string): string {
    var t := TrimDigits(s);
    if t != s && t != [] && t[|t| - 1] == '-' then t[..|t| - 1] else s
  }

  predicate SameBase(a: string, b: string) {
    Base(a) == Base(b)
  }

  lemma StripOfBase(s: string)
    ensures Strip(s) == Strip(Base(s))
  {
    var t := TrimDigits(s);
    if Base(s) != s {
      var number := s[|t|..];
      assert s == Base(s) + ("-" + number + "");
      StripAppend(Base(s), "-" + number + "");
      NumberStrips(number, "");
    }
  }

  // Stripping a name takes the suffix and nothing else exactly when no number is left before it.
  lemma StripsSuffixExactly(s: string)
    ensures Strip(s) == Base(s) <==> !HasNumber(Base(s))
  {
    StripOfBase(s);
    NoNumberIsLeft(Base(s));
    if !HasNumber(Base(s)) {
      StripKeepsNumberless(Base(s));
    }
  }

  // Two names are related exactly when they are but for their suffixes, or there is a number before
  // the suffix of one of them and without such numbers they are the same.
  lemma RelatedExactly(a: string, b: string)
    ensures SameFamily(a, b) <==>
            || SameBase(a, b)
            || ((HasNumber(Base(a)) || HasNumber(Base(b))) && Strip(Base(a)) == Strip(Base(b)))
  {
    StripOfBase(a);
    StripOfBase(b);
    StripsSuffixExactly(a);
    StripsSuffixExactly(b);
  }

  predicate Plain(name: string) {
    !HasNumber(Base(name))
  }

  ghost predicate RelatedBySuffixOnly(a: string) {
    forall b | Plain(b) :: SameFamily(a, b) <==> SameBase(a, b)
  }

  // Among names without a number before the suffix, a name has the relatives it is meant to have
  // exactly when it is one of them.
  lemma RelatedBySuffixExactly(a: string)
    ensures RelatedBySuffixOnly(a) <==> Plain(a)
  {
    if Plain(a) {
      forall b | Plain(b)
        ensures SameFamily(a, b) <==> SameBase(a, b)
      {
        RelatedExactly(a, b);
      }
    } else {
      var b := Strip(a);
      NoNumberIsLeft(a);
      NumberlessIsBase(b);
      StripIsIdempotent(a);
      StripsSuffixExactly(a);
      assert Plain(b) && SameFamily(a, b) && !SameBase(a, b);
    }
  }

  lemma NumberlessIsBase(s: string)
    requires !HasNumber(s)
    ensures Base(s) == s
  {
    var t := TrimDigits(s);
    if t != s && t != [] {
      var i := |t| - 1;
      assert s[|t|..][0] in s[|t|..] && IsDigit(s[i + 1]);
      assert s[i] != '-';
    }
  }

  // Two rules that have nothing to do with each other.
  lemma UnrelatedRulesAreRelated(a: string, b: string)
    requires a == "audit-1-rules" && b == "audit-rules"
    ensures SameFamily(a, b) && !SameBase(a, b)
  {
    NumberIsIgnoredAnywhere("audit", "1", "-rules");
    assert a == "audit" + "-" + "1" + "-rules" && b == "audit" + "-rules";
    assert TrimDigits(a) == a && TrimDigits(b) == b;
  }

  /******* Decisions *******/

  type Flags = map<string, bool>

  // One reconcile of the remediation `name`, on a copy of it with the decision `apply`, and the
  // relatives that it wrote this decision to.
  datatype Visit = Visit(name: string, apply: bool, written: set<string>)

  predicate Relative(member: string, name: string) {
    member != name && SameFamily(member, name)
  }

  predicate Sets(v: Visit, member: string) {
    member in v.written && Relative(member, v.name)
  }

  function FamilyStep(flags: Flags, v: Visit): Flags {
    map member | member in flags :: if Sets(v, member) then v.apply else flags[member]
  }

  function FamilyRun(flags: Flags, run: seq<Visit>): Flags {
    if run == [] then flags else FamilyStep(FamilyRun(flags, run[..|run| - 1]), run[|run| - 1])
  }

  // All members of the family of `member` have the same decision.
  predicate Agreed(flags: Flags, member: string, apply: bool) {
    forall other | other in flags && SameFamily(other, member) :: flags[other] == apply
  }

  ghost predicate Agree(flags: Flags, member: string) {
    exists apply :: Agreed(flags, member, apply)
  }

  // The visit works on a copy with another decision and writes it to some member.
  predicate Overrules(names: set<string>, v: Visit, member: string, apply: bool) {
    v.apply != apply && exists other | other in names :: SameFamily(other, member) && Sets(v, other)
  }

  lemma {:induction false} RunKeepsNames(flags: Flags, run: seq<Visit>)
    ensures FamilyRun(flags, run).Keys == flags.Keys
  {
    if run == [] {
    } else {
      RunKeepsNames(flags, run[..|run| - 1]);
    }
  }

  // The family agrees after every visit of the run, and agreed before.
  ghost predicate StaysAgreed(flags: Flags, run: seq<Visit>, member: string, apply: bool) {
    Agreed(FamilyRun(flags, run), member, apply) && (run != [] ==> StaysAgreed(flags, run[..|run| - 1], member, apply))
  }

  // A family that agrees stays agreed throughout a run exactly when no visit writes the decision
  // of a copy with the other one.
  lemma {:induction false} AgreementStandsExactly(flags: Flags, run: seq<Visit>, member: string, apply: bool)
    requires Agreed(flags, member, apply)
    ensures StaysAgreed(flags, run, member, apply) <==>
            forall i | 0 <= i < |run| :: !Overrules(flags.Keys, run[i], member, apply)
  {
    if run == [] {
    } else {
      var init, last := run[..|run| - 1], run[|run| - 1];
      AgreementStandsExactly(flags, init, member, apply);
      RunKeepsNames(flags, init);
      assert forall i | 0 <= i < |run| :: run[i] == if i < |init| then init[i] else last;
    }
  }

  // Who wrote a member last.
  function LastWriting(run: seq<Visit>, member: string): Option<Visit> {
    if run == [] then None
    else if Sets(run[|run| - 1], member) then Some(run[|run| - 1])
    else LastWriting(run[..|run| - 1], member)
  }

  // Otherwise every member ends up with the decision of the copy that was written to it last.
  lemma {:induction false} LastCopyDecides(flags: Flags, run: seq<Visit>, member: string)
    requires member in flags
    ensures member in FamilyRun(flags, run)
    ensures FamilyRun(flags, run)[member] ==
            match LastWriting(run, member) case None => flags[member] case Some(v) => v.apply
  {
    if run == [] {
    } else {
      LastCopyDecides(flags, run[..|run| - 1], member);
    }
  }

  /******* What a visit sees *******/

  // The relatives that a listing of decisions shows with another one. The listing may be older than
  // what is stored: it can lack members, name some that are gone, and show decisions that are over.
  function Differing(shown: Flags, name: string, apply: bool): set<string> {
    set member | member in shown && Relative(member, name) && shown[member] != apply
  }

  // A visit that completes has written every relative that its listing showed to differ.
  predicate Completed(shown: Flags, v: Visit) {
    v.written == Differing(shown, v.name, v.apply)
  }

  // A completed visit on a copy with the stored decision leaves its family with one decision exactly
  // when every relative has it already or was shown with the other; and one on a copy with another
  // decision, exactly when no relative has that or was written.
  lemma CompletedAgreesExactly(flags: Flags, shown: Flags, v: Visit)
    requires v.name in flags && Completed(shown, v)
    ensures v.apply == flags[v.name] ==>
              (Agree(FamilyStep(flags, v), v.name) <==>
               forall m | m in flags && Relative(m, v.name) ::
                 flags[m] == v.apply || (m in shown && shown[m] != v.apply))
    ensures v.apply != flags[v.name] ==>
              (Agree(FamilyStep(flags, v), v.name) <==>
               forall m | m in flags && Relative(m, v.name) ::
                 flags[m] != v.apply && (m in shown ==> shown[m] == v.apply))
  {
    var after, own := FamilyStep(flags, v), flags[v.name];
    assert after[v.name] == own && SameFamily(v.name, v.name);
    assert Agree(after, v.name) <==> Agreed(after, v.name, own);
    assert Agreed(after, v.name, own) <==> forall m | m in flags && Relative(m, v.name) :: after[m] == own;
  }

  // With a listing that is up to date for the family, the age of the copy is all that counts.
  lemma CurrentListingAgreesExactly(flags: Flags, shown: Flags, v: Visit)
    requires v.name in flags && Completed(shown, v)
    requires forall m | m in flags && Relative(m, v.name) :: m in shown && shown[m] == flags[m]
    ensures Agree(FamilyStep(flags, v), v.name) <==>
            v.apply == flags[v.name] || forall m | m in flags :: !Relative(m, v.name)
  {
    CompletedAgreesExactly(flags, shown, v);
  }

  lemma OneAndItsNumber()
    ensures Relative("a-1", "a") && Relative("a", "a-1")
  {
    NumberIsIgnoredAnywhere("a", "1", "");
    assert "a" + "-" + "1" + "" == "a-1" && "a" + "" == "a";
  }

  // A copy from before the decision was taken back sets the relative, and not the remediation itself.
  lemma StaleCopyBreaksAgreement(flags: Flags, v: Visit)
    requires flags == map["a" := false, "a-1" := false] && v == Visit("a", true, {"a-1"})
    ensures Completed(flags, v) && Agree(flags, "a")
    ensures FamilyStep(flags, v) == map["a" := false, "a-1" := true]
    ensures !Agree(FamilyStep(flags, v), "a")
  {
    OneAndItsNumber();
    assert Agreed(flags, "a", false);
    CurrentListingAgreesExactly(flags, flags, v);
    assert "a-1" in flags;
  }

  // A listing from before the relative was taken back shows nothing to write.
  lemma StaleListingKeepsDisagreement(flags: Flags, shown: Flags, v: Visit)
    requires flags == map["a" := true, "a-1" := false] && shown == map["a" := true, "a-1" := true]
    requires v == Visit("a", true, {})
    ensures Completed(shown, v) && v.apply == flags[v.name]
    ensures FamilyStep(flags, v) == flags && !Agree(flags, "a")
  {
    OneAndItsNumber();
    CompletedAgreesExactly(flags, shown, v);
    assert "a-1" in flags;
  }

  // A visit on the stored decision, that writes nobody or everybody who has another one.
  predicate FreshStep(flags: Flags, v: Visit) {
    && v.name in flags && v.apply == flags[v.name]
    && (v.written == {} || Completed(flags, v))
  }

  predicate Fresh(flags: Flags, run: seq<Visit>) {
    run != [] ==>
      && Fresh(flags, run[..|run| - 1])
      && FreshStep(FamilyRun(flags, run[..|run| - 1]), run[|run| - 1])
  }

  // The decision of the first visit of the family that writes anybody.
  function FirstDecision(run: seq<Visit>, member: string): Option<bool> {
    if run == [] then None
    else
      var before, last := FirstDecision(run[..|run| - 1], member), run[|run| - 1];
      if before.None? && last.written != {} && SameFamily(last.name, member) then Some(last.apply) else before
  }

  // What a fresh run makes of a family.
  ghost predicate DecidedByFirst(flags: Flags, run: seq<Visit>, member: string) {
    match FirstDecision(run, member)
    case None =>
      forall other | other in flags && SameFamily(other, member) ::
        other in FamilyRun(flags, run) && FamilyRun(flags, run)[other] == flags[other]
    case Some(apply) => Agreed(FamilyRun(flags, run), member, apply)
  }

  // With fresh copies, members that disagree end up with the decision of the first to be reconciled
  // with anything to write, and stay with it.
  lemma {:induction false} FirstReconciledDecides(flags: Flags, run: seq<Visit>, member: string)
    requires Fresh(flags, run)
    ensures FamilyRun(flags, run).Keys == flags.Keys
    ensures DecidedByFirst(flags, run, member)
  {
    RunKeepsNames(flags, run);
    if run == [] {
    } else {
      var init := run[..|run| - 1];
      FirstReconciledDecides(flags, init, member);
    }
  }
}
