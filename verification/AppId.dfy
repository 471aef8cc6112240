/** Which names may be app ids, and why the store's own directories never are. */
module AppId {
  import opened Text

  const RESERVED := "tech.solwear.shell"
  const MAX_ID := 128

  predicate Lowercase(c: char) {
    'a' <= c <= 'z'
  }

  predicate IdCharacter(c: char) {
    Lowercase(c) || '0' <= c <= '9' || c == '-'
  }

  /** The parts of `s` between dots. */
  function Labels(s: string): (r: seq<string>)
    ensures r != []
  {
    if s == "" then [""]
    else if s[0] == '.' then [""] + Labels(s[1..])
    else
      var rest := Labels(s[1..]);
      [[s[0]] + rest[0]] + rest[1..]
  }

  predicate ValidLabel(part: string) {
    part != "" && Lowercase(part[0]) && forall i :: 0 <= i < |part| ==> IdCharacter(part[i])
  }

  /** `validate_app_id(id).is_ok()` */
  predicate Accepted(id: string) {
    if id == "" || |id| > MAX_ID then false
    else if id == RESERVED then false
    else if |Labels(id)| < 2 then false
    else forall i :: 0 <= i < |Labels(id)| ==> ValidLabel(Labels(id)[i])
  }

  /** Every character is allowed, and each one that follows a dot, or nothing, is a letter. */
  predicate WellFormed(s: string) {
    && s != "" && Lowercase(s[0]) && s[|s| - 1] != '.'
    && (forall i :: 0 <= i < |s| ==> IdCharacter(s[i]) || s[i] == '.')
    && (forall i :: 0 <= i < |s| - 1 && s[i] == '.' ==> Lowercase(s[i + 1]))
  }

  /** What is left of a part and the labels after it. */
  predicate Continues(s: string) {
    && (s != "" ==> s[|s| - 1] != '.')
    && (forall i :: 0 <= i < |s| ==> IdCharacter(s[i]) || s[i] == '.')
    && (forall i :: 0 <= i < |s| - 1 && s[i] == '.' ==> Lowercase(s[i + 1]))
  }

  predicate ValidFrom(labels: seq<string>, i: nat) {
    forall k :: i <= k < |labels| ==> ValidLabel(labels[k])
  }

  predicate IdCharacters(part: string) {
    forall i :: 0 <= i < |part| ==> IdCharacter(part[i])
  }

  lemma {:induction false} LabelsContinue(s: string)
    ensures Continues(s) <==> IdCharacters(Labels(s)[0]) && ValidFrom(Labels(s), 1)
    ensures s != "" && s[0] != '.' ==> Labels(s)[0] != "" && Labels(s)[0][0] == s[0]
    ensures s == "" || s[0] == '.' ==> Labels(s)[0] == ""
  {
    if s != "" {
      LabelsContinue(s[1..]);
      ContinuesStep(s);
      if s[0] == '.' {
        UnfoldDot(s);
      } else {
        UnfoldOther(s);
      }
      hide Continues;
      hide Labels;
      hide ValidFrom;
    }
  }

  lemma UnfoldDot(s: string)
    requires s != "" && s[0] == '.'
    ensures IdCharacters(Labels(s)[0]) && Labels(s)[0] == ""
    ensures ValidFrom(Labels(s), 1) <==> ValidLabel(Labels(s[1..])[0]) && ValidFrom(Labels(s[1..]), 1)
  {
    var rest := Labels(s[1..]);
    hide ValidLabel;
    assert Labels(s) == [""] + rest;
    if ValidFrom(Labels(s), 1) {
      forall k | 0 <= k < |rest| ensures ValidLabel(rest[k]) {
        assert Labels(s)[k + 1] == rest[k];
      }
    }
  }

  lemma UnfoldOther(s: string)
    requires s != "" && s[0] != '.'
    ensures Labels(s)[0] == [s[0]] + Labels(s[1..])[0]
    ensures IdCharacters(Labels(s)[0]) <==> IdCharacter(s[0]) && IdCharacters(Labels(s[1..])[0])
    ensures ValidFrom(Labels(s), 1) <==> ValidFrom(Labels(s[1..]), 1)
  {
    var rest := Labels(s[1..]);
    assert Labels(s) == [[s[0]] + rest[0]] + rest[1..];
    hide *;
    FirstReplaced(rest, [s[0]] + rest[0]);
    OneMore(s[0], rest[0]);
  }

  lemma FirstReplaced(parts: seq<string>, first: string)
    requires parts != []
    ensures ValidFrom([first] + parts[1..], 1) <==> ValidFrom(parts, 1)
  {
    hide ValidLabel;
    assert forall k :: 1 <= k < |parts| ==> ([first] + parts[1..])[k] == parts[k];
  }

  lemma OneMore(c: char, part: string)
    ensures IdCharacters([c] + part) <==> IdCharacter(c) && IdCharacters(part)
  {
    hide IdCharacter;
    if IdCharacters([c] + part) {
      assert ([c] + part)[0] == c;
      assert forall i :: 0 <= i < |part| ==> ([c] + part)[i + 1] == part[i];
    }
  }

  lemma ContinuesStep(s: string)
    requires s != ""
    ensures Continues(s) <==>
              if s[0] == '.' then s[1..] != "" && Lowercase(s[1]) && Continues(s[1..])
              else IdCharacter(s[0]) && Continues(s[1..])
  {
    var t := s[1..];
    if Continues(s) {
      forall i | 0 <= i < |t| - 1 && t[i] == '.' ensures Lowercase(t[i + 1]) {
        assert s[i + 1] == '.';
      }
    }
  }

  lemma {:induction false} ManyLabels(s: string)
    ensures |Labels(s)| >= 2 <==> '.' in s
  {
    if s != "" {
      ManyLabels(s[1..]);
      assert s == [s[0]] + s[1..];
    }
  }

  /** The check by labels, said once for the whole string. */
  lemma AcceptedExactly(id: string)
    ensures Accepted(id) <==> |id| <= MAX_ID && id != RESERVED && '.' in id && WellFormed(id)
  {
    LabelsContinue(id);
    ManyLabels(id);
    var labels := Labels(id);
    assert ValidFrom(labels, 0) <==> ValidLabel(labels[0]) && ValidFrom(labels, 1);
    assert ValidLabel(labels[0]) <==> labels[0] != "" && Lowercase(labels[0][0]) && IdCharacters(labels[0]);
  }

  // --- the store's own directories -----------------------------------------------

  function Staging(pid: nat, n: nat): string {
    ".install-" + Decimal(pid) + "-" + Decimal(n)
  }

  function Backup(pid: nat, n: nat): string {
    ".backup-" + Decimal(pid) + "-" + Decimal(n)
  }

  /** Staging and backup directories are never taken for an app, nor for one another. */
  lemma PrivateNames(pid: nat, m: nat, n: nat)
    ensures !Accepted(Staging(pid, n)) && !Accepted(Backup(pid, n))
    ensures Staging(pid, m) != Backup(pid, n)
    ensures Staging(pid, m) == Staging(pid, n) ==> m == n
    ensures Backup(pid, m) == Backup(pid, n) ==> m == n
  {
    AcceptedExactly(Staging(pid, n));
    AcceptedExactly(Backup(pid, n));
    assert Staging(pid, m)[1] == 'i' && Backup(pid, n)[1] == 'b';
    var front := ".install-" + Decimal(pid) + "-";
    if Staging(pid, m) == Staging(pid, n) {
      assert Staging(pid, m)[|front|..] == Decimal(m) && Staging(pid, n)[|front|..] == Decimal(n);
      DecimalInjective(m, n);
    }
    var front' := ".backup-" + Decimal(pid) + "-";
    if Backup(pid, m) == Backup(pid, n) {
      assert Backup(pid, m)[|front'|..] == Decimal(m) && Backup(pid, n)[|front'|..] == Decimal(n);
      DecimalInjective(m, n);
    }
  }
}
