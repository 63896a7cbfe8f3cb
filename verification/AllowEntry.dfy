/** The `--allow type:ref:role` entries of the agent; the reference may itself contain colons. */
module AllowEntry {
  import opened Prelude
  import opened AccessPolicy

  datatype SubjectType = UserSubject | GroupSubject

  datatype AgentAllowEntry = AgentAllowEntry(subjectType: SubjectType, ref: string, role: Role)

  datatype AllowError = Malformed | EmptyReference | UnknownType(typeName: string) | UnknownRole(roleName: string)

  function TypeName(t: SubjectType): string {
    match t case UserSubject => "user" case GroupSubject => "group"
  }

  function RoleName(r: Role): string {
    match r case Read => "read" case Write => "write" case Receive => "receive"
  }

  function TypeOfName(name: string): Option<SubjectType> {
    if name == "user" then Some(UserSubject) else if name == "group" then Some(GroupSubject) else None
  }

  function RoleOfName(name: string): Option<Role> {
    if name == "read" then Some(Read) else if name == "write" then Some(Write)
    else if name == "receive" then Some(Receive) else None
  }

  /** The index of the first colon, or the length when there is none. */
  function FirstColon(s: string): (i: nat)
    ensures i <= |s| && (forall k :: 0 <= k < i ==> s[k] != ':') && (i < |s| ==> s[i] == ':')
  {
    if s == "" || s[0] == ':' then 0 else 1 + FirstColon(s[1..])
  }

  /** The index of the last colon, if any. */
  function LastColon(s: string): (i: Option<nat>)
    ensures i.None? ==> ':' !in s
    ensures i.Some? ==> i.value < |s| && s[i.value] == ':' && forall k :: i.value < k < |s| ==> s[k] != ':'
  {
    if s == "" then None
    else
      var n := |s| - 1;
      if s[n] == ':' then Some(n)
      else
        assert s == s[..n] + [s[n]];
        LastColon(s[..n])
  }

  /** The three fields peeled off the front and the back, untrimmed. */
  function Fields(spec: string): Option<(string, string, string)> {
    var i := FirstColon(spec);
    if i == |spec| then None
    else
      var rest := spec[i + 1..];
      var j := LastColon(rest);
      if j.None? then None else Some((spec[..i], rest[..j.value], rest[j.value + 1..]))
  }

  /** Trims the fields and looks their names up. */
  function ParseFields(t: string, r: string, o: string): Result<AgentAllowEntry, AllowError> {
    var (typeStr, ref, roleStr) := (Strip(t), Strip(r), Strip(o));
    if ref == "" then Failure(EmptyReference)
    else if TypeOfName(typeStr).None? then Failure(UnknownType(typeStr))
    else if RoleOfName(roleStr).None? then Failure(UnknownRole(roleStr))
    else Success(AgentAllowEntry(TypeOfName(typeStr).value, ref, RoleOfName(roleStr).value))
  }

  function ParseAllowEntry(spec: string): Result<AgentAllowEntry, AllowError> {
    var fields := Fields(spec);
    if fields.None? then Failure(Malformed) else ParseFields(fields.value.0, fields.value.1, fields.value.2)
  }

  function PrintAllowEntry(e: AgentAllowEntry): string {
    TypeName(e.subjectType) + ":" + e.ref + ":" + RoleName(e.role)
  }

  /** `spec` is written as three fields whose outer ones hold no colon. */
  ghost predicate Written(spec: string, t: string, r: string, o: string) {
    spec == t + ":" + r + ":" + o && ':' !in t && ':' !in o
  }

  lemma LastColonIs(s: string, r: string, o: string)
    requires s == r + ":" + o && ':' !in o
    ensures LastColon(s) == Some(|r|)
  {
    assert s[|r|] == ':';
    forall k | |r| < k < |s| ensures s[k] != ':' {
      assert s[k] == o[k - |r| - 1];
      assert o[k - |r| - 1] in o;
    }
    LastColonUnique(s, |r|);
  }

  lemma LastColonUnique(s: string, i: nat)
    requires i < |s| && s[i] == ':' && forall k :: i < k < |s| ==> s[k] != ':'
    ensures LastColon(s) == Some(i)
  {
    assert s[i] in s;
  }

  lemma FirstColonIs(s: string, t: string, rest: string)
    requires s == t + ":" + rest && ':' !in t
    ensures FirstColon(s) == |t|
  {
    assert s[|t|] == ':';
    forall k | 0 <= k < |t| ensures s[k] != ':' {
      assert s[k] == t[k];
      assert t[k] in t;
    }
  }

  lemma WrittenSplits(spec: string, t: string, r: string, o: string)
    requires Written(spec, t, r, o)
    ensures Fields(spec) == Some((t, r, o))
  {
    var rest := r + ":" + o;
    assert spec == t + ":" + rest;
    FirstColonIs(spec, t, rest);
    LastColonIs(rest, r, o);
    assert spec[..|t|] == t && spec[|t| + 1..] == rest;
    assert rest[..|r|] == r && rest[|r| + 1..] == o;
  }

  lemma CutAt(s: string, i: nat)
    requires i < |s| && s[i] == ':'
    ensures s == s[..i] + ":" + s[i + 1..]
  {
  }

  lemma Regroup(t: string, r: string, o: string)
    ensures t + ":" + (r + ":" + o) == t + ":" + r + ":" + o
  {
  }

  lemma SplitIsWritten(spec: string)
    requires Fields(spec).Some?
    ensures var (t, r, o) := Fields(spec).value; Written(spec, t, r, o)
  {
    var i := FirstColon(spec);
    var rest := spec[i + 1..];
    var j := LastColon(rest).value;
    CutAt(spec, i);
    CutAt(rest, j);
    Regroup(spec[..i], rest[..j], rest[j + 1..]);
  }

  /** A spec splits into at most one triple of fields, whatever colons the reference holds. */
  lemma FieldsAreExact(spec: string, t: string, r: string, o: string)
    ensures Fields(spec) == Some((t, r, o)) <==> Written(spec, t, r, o)
  {
    if Written(spec, t, r, o) { WrittenSplits(spec, t, r, o); }
    if Fields(spec) == Some((t, r, o)) { SplitIsWritten(spec); }
  }

  lemma NamesAreTrimmed(e: AgentAllowEntry)
    ensures Strip(TypeName(e.subjectType)) == TypeName(e.subjectType) && Strip(RoleName(e.role)) == RoleName(e.role)
    ensures ':' !in TypeName(e.subjectType) && ':' !in RoleName(e.role)
  {
    assert Trimmed(TypeName(e.subjectType)) && Trimmed(RoleName(e.role));
    StripTrims(TypeName(e.subjectType));
    StripTrims(RoleName(e.role));
  }

  lemma PrintedFields(e: AgentAllowEntry)
    ensures Fields(PrintAllowEntry(e)) == Some((TypeName(e.subjectType), e.ref, RoleName(e.role)))
  {
    NamesAreTrimmed(e);
    WrittenSplits(PrintAllowEntry(e), TypeName(e.subjectType), e.ref, RoleName(e.role));
  }

  lemma ParseFieldsOfEntry(e: AgentAllowEntry)
    ensures ParseFields(TypeName(e.subjectType), e.ref, RoleName(e.role)) ==
            if Strip(e.ref) == "" then Failure(EmptyReference) else Success(e.(ref := Strip(e.ref)))
  {
    NamesAreTrimmed(e);
  }

  /** Printing then parsing gives the entry back with its reference stripped, for any reference. */
  lemma ParsePrint(e: AgentAllowEntry)
    ensures ParseAllowEntry(PrintAllowEntry(e)) ==
            if Strip(e.ref) == "" then Failure(EmptyReference) else Success(e.(ref := Strip(e.ref)))
  {
    PrintedFields(e);
    ParseFieldsOfEntry(e);
  }

  /** The round trip is exact precisely for trimmed, non-empty references. */
  lemma RoundTripExactlyWhen(e: AgentAllowEntry)
    ensures ParseAllowEntry(PrintAllowEntry(e)) == Success(e) <==> e.ref != "" && Trimmed(e.ref)
  {
    ParsePrint(e);
    StripTrims(e.ref);
  }

  /** The trimmed fields spell the entry `e`. */
  ghost predicate Spell(t: string, r: string, o: string, e: AgentAllowEntry) {
    && Strip(t) == (if e.subjectType.UserSubject? then "user" else "group")
    && Strip(r) == e.ref && e.ref != ""
    && Strip(o) == (if e.role.Read? then "read" else if e.role.Write? then "write" else "receive")
  }

  lemma FieldsSpellEntry(t: string, r: string, o: string, e: AgentAllowEntry)
    ensures ParseFields(t, r, o) == Success(e) <==> Spell(t, r, o, e)
  {
  }

  lemma AcceptedIsSpelled(spec: string, e: AgentAllowEntry)
    requires ParseAllowEntry(spec) == Success(e)
    ensures exists t, r, o :: Written(spec, t, r, o) && Spell(t, r, o, e)
  {
    var (t, r, o) := Fields(spec).value;
    SplitIsWritten(spec);
    FieldsSpellEntry(t, r, o, e);
  }

  lemma SpelledIsAccepted(spec: string, t: string, r: string, o: string, e: AgentAllowEntry)
    requires Written(spec, t, r, o) && Spell(t, r, o, e)
    ensures ParseAllowEntry(spec) == Success(e)
  {
    WrittenSplits(spec, t, r, o);
    FieldsSpellEntry(t, r, o, e);
  }

  /** Parsing accepts exactly the specs the grammar describes, and yields the entry they spell. */
  lemma ParseIsExact(spec: string, e: AgentAllowEntry)
    ensures ParseAllowEntry(spec) == Success(e) <==> exists t, r, o :: Written(spec, t, r, o) && Spell(t, r, o, e)
  {
    if ParseAllowEntry(spec) == Success(e) {
      AcceptedIsSpelled(spec, e);
    } else if t, r, o :| Written(spec, t, r, o) && Spell(t, r, o, e) {
      SpelledIsAccepted(spec, t, r, o, e);
    }
  }

  ghost predicate TwoColons(spec: string) {
    exists i, j :: 0 <= i < j < |spec| && spec[i] == ':' && spec[j] == ':'
  }

  lemma FieldsNeedTwoColons(spec: string)
    ensures Fields(spec).Some? <==> TwoColons(spec)
  {
    var i := FirstColon(spec);
    if i < |spec| {
      var rest := spec[i + 1..];
      var j := LastColon(rest);
      if j.Some? {
        assert rest[j.value] == spec[i + 1 + j.value];
      } else {
        forall b | i < b < |spec| ensures spec[b] != ':' {
          assert spec[b] == rest[b - i - 1] && rest[b - i - 1] in rest;
        }
      }
    }
  }

  /** Which complaint a rejected spec gets: shape first, then reference, type and role. */
  lemma ErrorsAreExact(spec: string)
    ensures ParseAllowEntry(spec) == Failure(Malformed) <==> !TwoColons(spec)
    ensures forall t, r, o :: Written(spec, t, r, o) ==>
              var badType := Strip(t) != "user" && Strip(t) != "group";
              var badRole := Strip(o) != "read" && Strip(o) != "write" && Strip(o) != "receive";
              && (ParseAllowEntry(spec) == Failure(EmptyReference) <==> Strip(r) == "")
              && (ParseAllowEntry(spec) == Failure(UnknownType(Strip(t))) <==> Strip(r) != "" && badType)
              && (ParseAllowEntry(spec) == Failure(UnknownRole(Strip(o))) <==>
                    Strip(r) != "" && !badType && badRole)
  {
    FieldsNeedTwoColons(spec);
    forall t, r, o | Written(spec, t, r, o) ensures ParseAllowEntry(spec) == ParseFields(t, r, o) {
      WrittenSplits(spec, t, r, o);
    }
  }

  /** Whatever parses is printed to a spec that parses to the same entry. */
  lemma ParsePrintParse(spec: string)
    requires ParseAllowEntry(spec).Success?
    ensures ParseAllowEntry(PrintAllowEntry(ParseAllowEntry(spec).value)) == ParseAllowEntry(spec)
  {
    StripTrims(Fields(spec).value.1);
    RoundTripExactlyWhen(ParseAllowEntry(spec).value);
  }
}
