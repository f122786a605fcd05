/** Spec file names (`agent/src/report.ts`, `specFilename` and `parseSpecIdentity`). */
module SpecIdentity {
  import opened Strings
  import opened Wrappers

  const SUFFIX := ".spec.ts"

  /** `parts[parts.length - 1]` of `ticket.split("-")`. */
  function LastSegment(ticket: string): string {
    if ticket == "" || ticket[|ticket| - 1] == '-' then ""
    else LastSegment(ticket[..|ticket| - 1]) + [ticket[|ticket| - 1]]
  }

  function SpecFilename(ticket: string, caseCode: string): string {
    LastSegment(ticket) + "-" + caseCode + SUFFIX
  }

  /** The characters that `.` does not match. */
  predicate IsLineEnd(c: char) {
    c == '\n' || c == '\r' || c == '\U{2028}' || c == '\U{2029}'
  }

  predicate OneLine(s: string) {
    forall i :: 0 <= i < |s| ==> !IsLineEnd(s[i])
  }

  /** `TC-\d+`, the whole of `s`. */
  predicate IsCaseCode(s: string) {
    |s| >= 4 && s[..3] == "TC-" && AllDigits(s[3..])
  }

  /** `(.+)` takes the first `i` characters, `-` follows, and a case code takes the rest. */
  predicate SplitsAt(base: string, i: nat) {
    0 < i < |base| && OneLine(base[..i]) && base[i] == '-' && IsCaseCode(base[i + 1..])
  }

  /** `(.+)` is greedy: the last position at which the pattern matches. */
  function GreedySplit(base: string, i: nat): (r: Option<nat>)
    ensures r.Some? ==> SplitsAt(base, r.value) && r.value <= i
    ensures forall j: nat :: j <= i && SplitsAt(base, j) ==> r.Some? && j <= r.value
  {
    if SplitsAt(base, i) then Some(i) else if i == 0 then None else GreedySplit(base, i - 1)
  }

  function StripSuffix(filename: string): string {
    var n := |filename| - |SUFFIX|;
    if n >= 0 && filename[n..] == SUFFIX then filename[..n] else filename
  }

  datatype Identity = Identity(shortTicket: string, caseCode: string)

  function ParseSpecIdentity(filename: string): Identity {
    var base := StripSuffix(filename);
    match GreedySplit(base, |base|)
    case Some(i) => Identity(base[..i], base[i + 1..])
    case None => Identity(base, "")
  }

  /** A case code holds one `-`, so a text splits at one position at most. */
  lemma OneSplit(base: string, i: nat, j: nat)
    requires SplitsAt(base, i) && SplitsAt(base, j)
    ensures i == j
  {
    DashInCode(base, i, j);
    DashInCode(base, j, i);
  }

  lemma DashInCode(base: string, i: nat, j: nat)
    requires SplitsAt(base, i) && SplitsAt(base, j)
    ensures i >= j
  {
    CodeChars(base[i + 1..]);
    CodeChars(base[j + 1..]);
    assert base[j + 1] == base[j + 1..][0] == 'T';
    var code := base[i + 1..];
    assert forall k :: 0 <= k < |code| ==> code[k] == base[i + 1 + k];
  }

  lemma CodeChars(code: string)
    requires IsCaseCode(code)
    ensures code[0] == 'T' && code[1] == 'C' && code[2] == '-' && forall k :: 3 <= k < |code| ==> IsDigit(code[k])
  {
    var head := code[..3];
    assert head[0] == 'T' && head[1] == 'C' && head[2] == '-';
    assert forall k :: 3 <= k < |code| ==> code[k] == code[3..][k - 3];
  }

  lemma StripShown(s: string)
    ensures StripSuffix(s + SUFFIX) == s
  {
  }

  /**
    A file name gives back the short ticket and the code exactly when the short ticket is a line of text, and
    not empty.
   */
  lemma FilenameRoundTrip(ticket: string, caseCode: string)
    requires IsCaseCode(caseCode)
    ensures ParseSpecIdentity(SpecFilename(ticket, caseCode)) == Identity(LastSegment(ticket), caseCode)
       <==> LastSegment(ticket) != "" && OneLine(LastSegment(ticket))
  {
    assert |caseCode| > 0;
    hide IsCaseCode, OneLine;
    var short := LastSegment(ticket);
    var base := short + "-" + caseCode;
    StripShown(base);
    assert base[..|short|] == short && base[|short| + 1..] == caseCode && base[|short|] == '-';
    if short != "" && OneLine(short) {
      assert SplitsAt(base, |short|);
      OneSplit(base, GreedySplit(base, |base|).value, |short|);
    } else {
      assert !SplitsAt(base, |short|);
      NoCodeNoRoundTrip(base, short, caseCode);
    }
  }

  lemma NoCodeNoRoundTrip(base: string, short: string, caseCode: string)
    requires !SplitsAt(base, |short|) && |caseCode| > 0
    ensures (match GreedySplit(base, |base|)
             case Some(i) => Identity(base[..i], base[i + 1..])
             case None => Identity(base, "")) != Identity(short, caseCode)
  {
    assert GreedySplit(base, |base|).Some? ==> |base[..GreedySplit(base, |base|).value]| != |short|;
  }

  /** The short ticket is what stands after the last `-`. */
  lemma {:induction false} LastSegmentIsLast(ticket: string)
    ensures '-' !in LastSegment(ticket)
    ensures LastSegment(ticket) == ticket
         || exists before :: ticket == before + "-" + LastSegment(ticket)
  {
    if ticket == "" {
    } else if ticket[|ticket| - 1] == '-' {
      assert ticket == ticket[..|ticket| - 1] + "-" + "";
    } else {
      var most, last := ticket[..|ticket| - 1], [ticket[|ticket| - 1]];
      LastSegmentIsLast(most);
      if LastSegment(most) != most {
        var before :| most == before + "-" + LastSegment(most);
        assert ticket == before + "-" + (LastSegment(most) + last);
      }
    }
  }

  /** A short ticket of one line, `-TC-`, and digits. */
  ghost predicate Coded(base: string, short: string, digits: string) {
    && short != "" && (forall c <- short :: c != '\n' && c != '\r' && c != '\U{2028}' && c != '\U{2029}')
    && digits != "" && AllDigits(digits)
    && base == short + "-TC-" + digits
  }

  lemma CodedSplits(base: string, short: string, digits: string)
    requires Coded(base, short, digits)
    ensures SplitsAt(base, |short|) && base[..|short|] == short && base[|short| + 1..] == "TC-" + digits
  {
    var code := "TC-" + digits;
    assert base == short + "-" + code;
    assert code[..3] == "TC-" && code[3..] == digits;
    assert base[..|short|] == short && forall i :: 0 <= i < |short| ==> short[i] in short;
  }

  lemma SplitIsCoded(base: string, i: nat)
    requires SplitsAt(base, i)
    ensures Coded(base, base[..i], base[i + 4..])
  {
    var code := base[i + 1..];
    assert code == code[..3] + code[3..] && code[3..] == base[i + 4..];
    assert base == base[..i] + "-" + code;
    assert forall c <- base[..i] :: !IsLineEnd(c);
  }

  /** What a file name is read as, for every name: its two parts when it has them, else all of it and no code. */
  lemma ParsedExactly(base: string)
    ensures forall short, digits :: Coded(base, short, digits) ==>
              ParseSpecIdentity(base + ".spec.ts") == Identity(short, "TC-" + digits)
    ensures (forall short, digits :: !Coded(base, short, digits)) ==>
              ParseSpecIdentity(base + ".spec.ts") == Identity(base, "")
    ensures (forall stem :: base != stem + ".spec.ts") ==>
              ParseSpecIdentity(base) == ParseSpecIdentity(base + ".spec.ts")
  {
    hide SplitsAt, Coded;
    StripShown(base);
    var found := GreedySplit(base, |base|);
    if found.Some? {
      SplitIsCoded(base, found.value);
    }
    forall short, digits | Coded(base, short, digits)
      ensures ParseSpecIdentity(base + ".spec.ts") == Identity(short, "TC-" + digits)
    {
      CodedSplits(base, short, digits);
      CodedShorter(base, short, digits);
      OneSplit(base, found.value, |short|);
    }
    if StripSuffix(base) != base {
      assert base == StripSuffix(base) + ".spec.ts";
    }
  }

  lemma CodedShorter(base: string, short: string, digits: string)
    requires Coded(base, short, digits)
    ensures |short| <= |base|
  {
  }
}
