/** Site and account names (`safeUser`). */
module Names {
  const NAME_LIMIT: nat := 32

  predicate IsSpace(c: char) {
    c in " \t\n\r"
  }

  predicate NameChar(c: char) {
    c == '_' || c == '-' || 'a' <= c <= 'z' || '0' <= c <= '9'
  }

  function TrimLeft(s: string): string {
    if s != "" && IsSpace(s[0]) then TrimLeft(s[1..]) else s
  }

  function TrimRight(s: string): string {
    if s != "" && IsSpace(s[|s| - 1]) then TrimRight(s[..|s| - 1]) else s
  }

  function TrimSpace(s: string): string {
    TrimRight(TrimLeft(s))
  }

  /** The trimmed name, or "" when it is not a usable name. */
  function SafeUser(s: string): string {
    var t := TrimSpace(s);
    if 0 < |t| <= NAME_LIMIT && forall i | 0 <= i < |t| :: NameChar(t[i]) then t else ""
  }

  predicate Blank(s: string) {
    forall i | 0 <= i < |s| :: IsSpace(s[i])
  }

  /** No blank at either end. */
  predicate Trim(s: string) {
    s == "" || (!IsSpace(s[0]) && !IsSpace(s[|s| - 1]))
  }

  lemma {:induction false} TrimLeftCuts(s: string) returns (left: string)
    ensures Blank(left) && s == left + TrimLeft(s) && (TrimLeft(s) == "" || !IsSpace(TrimLeft(s)[0]))
  {
    left := "";
    if s != "" && IsSpace(s[0]) {
      var rest := TrimLeftCuts(s[1..]);
      left := [s[0]] + rest;
      assert s == [s[0]] + s[1..];
    }
  }

  lemma {:induction false} TrimRightCuts(s: string) returns (right: string)
    ensures Blank(right) && s == TrimRight(s) + right
    ensures TrimRight(s) == "" || !IsSpace(TrimRight(s)[|TrimRight(s)| - 1])
  {
    right := "";
    if s != "" && IsSpace(s[|s| - 1]) {
      var rest := TrimRightCuts(s[..|s| - 1]);
      right := rest + [s[|s| - 1]];
      assert s == s[..|s| - 1] + [s[|s| - 1]];
    }
  }

  /** Trimming cuts blanks off both ends, and as many as there are. */
  lemma TrimSpaceCuts(s: string) returns (left: string, right: string)
    ensures Blank(left) && Blank(right) && s == left + TrimSpace(s) + right && Trim(TrimSpace(s))
  {
    left := TrimLeftCuts(s);
    right := TrimRightCuts(TrimLeft(s));
    var t := TrimSpace(s);
    assert t != "" ==> TrimLeft(s)[0] == t[0];
  }

  /** Only a blank text is trimmed to nothing. */
  lemma BlankExactly(s: string)
    ensures TrimSpace(s) == "" <==> Blank(s)
  {
    var left, right := TrimSpaceCuts(s);
    if TrimSpace(s) == "" {
      assert s == left + right;
    } else {
      assert s[|left|] == TrimSpace(s)[0];
    }
  }

  /**
    A name is usable exactly when, without the blanks around it, it has 1 to 32 characters, all of
    them lower-case letters, digits, '_' or '-'; those are then the name.
  */
  lemma SafeUserExactly(s: string) returns (left: string, right: string)
    ensures Blank(left) && Blank(right) && s == left + TrimSpace(s) + right && Trim(TrimSpace(s))
    ensures var t := TrimSpace(s);
            SafeUser(s) ==
            if 1 <= |t| <= 32 && (forall c | c in t :: 'a' <= c <= 'z' || '0' <= c <= '9' || c == '_' || c == '-')
            then t else ""
  {
    left, right := TrimSpaceCuts(s);
    var t := TrimSpace(s);
    if forall i | 0 <= i < |t| :: NameChar(t[i]) {
      assert forall c | c in t :: NameChar(c);
    } else {
      var i :| 0 <= i < |t| && !NameChar(t[i]);
      assert t[i] in t;
    }
  }
}
