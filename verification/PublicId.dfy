/** Prefixed public identifiers: `ws_<uuid>` on the wire, the bare UUID in a query. */
module PublicId {
  import opened Prelude
  import opened Text
  import opened TextLaws

  datatype IdError = WrongPrefix | Malformed

  const UUID_LENGTH := 36
  const WORKSPACE_PREFIX := "ws"
  const SEPARATOR := '_'

  predicate DashAt(i: int) { i == 8 || i == 13 || i == 18 || i == 23 }

  predicate LowerHex(c: char) { '0' <= c <= '9' || 'a' <= c <= 'f' }

  predicate IsHex(c: char) { LowerHex(c) || 'A' <= c <= 'F' }

  function LowerAscii(c: char): char { if 'A' <= c <= 'Z' then c + 32 as char else c }

  /** The 8-4-4-4-12 form, in either case. */
  predicate IsUuid(s: string) {
    |s| == UUID_LENGTH && forall i :: 0 <= i < |s| ==> if DashAt(i) then s[i] == '-' else IsHex(s[i])
  }

  /** The form kept in the database. */
  predicate Canonical(s: string) {
    |s| == UUID_LENGTH && forall i :: 0 <= i < |s| ==> if DashAt(i) then s[i] == '-' else LowerHex(s[i])
  }

  function Normalized(s: string): Option<string> { if IsUuid(s) then Some(Lowered(s, LowerAscii)) else None }

  method NormalizeUuid(s: string) returns (r: Option<string>)
    ensures r == Normalized(s)
  {
    if |s| != UUID_LENGTH {
      return None;
    }
    for i := 0 to UUID_LENGTH
      invariant forall j :: 0 <= j < i ==> if DashAt(j) then s[j] == '-' else IsHex(s[j])
    {
      if DashAt(i) {
        if s[i] != '-' {
          return None;
        }
      } else if !IsHex(s[i]) {
        return None;
      }
    }
    return Some(Lowered(s, LowerAscii));
  }

  function Format(prefix: string, uuid: string): string { prefix + [SEPARATOR] + uuid }

  function Parse(prefix: string, raw: string): Result<string, IdError> {
    var s := Trim(raw);
    if s == "" then Err(Malformed)
    else
      var (before, after, found) := Cut(s, SEPARATOR);
      if found && before != prefix then Err(WrongPrefix)
      else match Normalized(if found then after else s)
        case None => Err(Malformed)
        case Some(uuid) => Ok(uuid)
  }

  /** A prefix as this API uses them: letters only. */
  predicate GoodPrefix(p: string) { p != "" && !IsSpace(p[0]) && SEPARATOR !in p }

  lemma NormalIsCanonical(s: string)
    ensures Normalized(s).Some? ==> Canonical(Normalized(s).value)
    ensures Canonical(s) ==> Normalized(s) == Some(s)
  {
    assert forall i :: 0 <= i < |s| ==> Lowered(s, LowerAscii)[i] == LowerAscii(s[i]);
    if Canonical(s) {
      forall i | 0 <= i < |s| ensures LowerAscii(s[i]) == s[i] {
        assert DashAt(i) || LowerHex(s[i]);
      }
      assert Lowered(s, LowerAscii) == s;
    } else if IsUuid(s) {
      var t := Lowered(s, LowerAscii);
      forall i | 0 <= i < |s| ensures if DashAt(i) then t[i] == '-' else LowerHex(t[i]) {
        assert DashAt(i) || IsHex(s[i]);
      }
    }
  }

  lemma CanonicalIsPlain(u: string)
    requires Canonical(u)
    ensures Trimmed(u) && u != "" && SEPARATOR !in u
  {
  }

  /** Printing an id and parsing it gives it back, prefixed or bare, and a parsed id
      is always in the one form the database holds. */
  lemma ParseOfFormat(prefix: string, u: string, s: string)
    requires GoodPrefix(prefix)
    ensures Canonical(u) ==> Parse(prefix, Format(prefix, u)) == Ok(u) && Parse(prefix, u) == Ok(u)
    ensures Parse(prefix, s).Ok? ==> Canonical(Parse(prefix, s).value)
  {
    hide Trim, Cut, Normalized, Canonical, IsSpace;
    if Canonical(u) {
      CanonicalIsPlain(u);
      NormalIsCanonical(u);
      TrimTrims(u);
      FormatIsTrimmed(prefix, u);
      CutFirst(prefix, u, SEPARATOR);
    }
    var t := Trim(s);
    NormalIsCanonical(if Cut(t, SEPARATOR).2 then Cut(t, SEPARATOR).1 else t);
  }

  lemma FormatIsTrimmed(prefix: string, u: string)
    requires GoodPrefix(prefix) && Trimmed(u) && u != ""
    ensures Trim(Format(prefix, u)) == Format(prefix, u) && Format(prefix, u) != ""
  {
    hide IsSpace, Trim;
    var s := Format(prefix, u);
    assert s[0] == prefix[0] && s[|s| - 1] == u[|u| - 1];
    TrimTrims(s);
  }

  /** What is accepted: white space around it aside, a UUID on its own or behind the prefix
      and the separator, in either case; and what comes out is that UUID lowered. */
  lemma ParseIff(prefix: string, raw: string, u: string)
    requires GoodPrefix(prefix)
    ensures Parse(prefix, raw) == Ok(u) <==>
            exists id: string :: IsUuid(id) && u == Lowered(id, LowerAscii) && Trim(raw) in [id, prefix + "_" + id]
    ensures Parse(prefix, raw) == Err(WrongPrefix) <==>
            SEPARATOR in Trim(raw) && !(prefix + "_" <= Trim(raw))
  {
    hide Trim, IsUuid;
    var s := Trim(raw);
    forall id: string | IsUuid(id) ensures SEPARATOR !in id && id != "" { UuidIsPlain(id); }
    assert prefix + "_" == prefix + [SEPARATOR];
    if prefix + "_" <= s { assert s[|prefix|] == SEPARATOR; }
    var (before, after, found) := Cut(s, SEPARATOR);
    if found {
      if before == prefix { assert s == prefix + "_" + after; }
      if prefix + "_" <= s {
        var rest := s[|prefix| + 1..];
        assert s == prefix + [SEPARATOR] + rest;
        CutFirst(prefix, rest, SEPARATOR);
      }
    }
    if id: string :| IsUuid(id) && u == Lowered(id, LowerAscii) && s == prefix + "_" + id {
      assert s == prefix + [SEPARATOR] + id;
      CutFirst(prefix, id, SEPARATOR);
    }
  }

  /** What a UUID looks like, and what lowering does to it. */
  lemma UuidShape(s: string)
    ensures IsUuid(s) <==>
            && |s| == 36 && s[8] == '-' && s[13] == '-' && s[18] == '-' && s[23] == '-'
            && forall i :: 0 <= i < 36 && i !in {8, 13, 18, 23} ==>
                 '0' <= s[i] <= '9' || 'a' <= s[i] <= 'f' || 'A' <= s[i] <= 'F'
    ensures forall c: char :: 'A' <= c <= 'Z' ==> LowerAscii(c) as int - 'a' as int == c as int - 'A' as int
    ensures forall c: char :: !('A' <= c <= 'Z') ==> LowerAscii(c) == c
  {
  }

  lemma UuidIsPlain(id: string)
    requires IsUuid(id)
    ensures SEPARATOR !in id && id != ""
  {
    forall i | 0 <= i < |id| ensures id[i] != SEPARATOR {
      assert DashAt(i) || IsHex(id[i]);
    }
  }

  /** An id of another kind is told apart from a malformed one. */
  lemma OtherKindIsWrongPrefix(prefix: string, other: string, u: string)
    requires GoodPrefix(other) && prefix != other && Canonical(u)
    ensures Parse(prefix, Format(other, u)) == Err(WrongPrefix)
  {
    hide Trim, Cut, Normalized, Canonical, IsSpace;
    CanonicalIsPlain(u);
    FormatIsTrimmed(other, u);
    CutFirst(other, u, SEPARATOR);
  }
}
