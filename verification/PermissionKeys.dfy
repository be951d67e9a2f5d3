/** Proposed actions and the keys under which answers about them may be remembered. */
module PermissionKeys {
  import opened Options
  import opened PythonText

  datatype SideEffect = Nothing | Read | Write | Network | Communication | Payment | Privileged

  /** An argument: absent, a string, or another value with its `str()`. */
  datatype Argument = Absent | Str(text: string) | Other(shown: string)

  datatype Proposal = Proposal(tool: string, sideEffect: SideEffect, connector: Option<string>, mode: Argument, ref: Argument)

  predicate IsWordChar(c: char) {
    'a' <= c <= 'z' || '0' <= c <= '9' || c == '_'
  }

  predicate IsName(s: string) {
    s != "" && forall i :: 0 <= i < |s| ==> IsWordChar(s[i])
  }

  predicate IsRef(s: string) {
    s != "" && forall i :: 0 <= i < |s| ==> s[i] != ':' && !IsSpace(s[i])
  }

  predicate IsMode(s: string) {
    s == "append" || s == "create" || s == "overwrite"
  }

  function KeyOf(connector: string, mode: string, ref: string): string {
    "memory_write:write:" + (connector + ":" + (mode + ":" + ref))
  }

  function DeriveKey(p: Proposal): Option<string> {
    if p.tool != "memory.write" || p.sideEffect != Write then None
    else
      match (p.connector, p.mode, p.ref)
      case (Some(c), Str(m), Str(r)) => if IsName(c) && IsMode(m) && IsRef(r) then Some(KeyOf(c, m, r)) else None
      case _ => None
  }

  /** A connector of lower-case letters, digits and underscores, a known mode, and a ref without colon or blank. */
  predicate Memorable(connector: string, mode: string, ref: string) {
    && connector != "" && (forall i :: 0 <= i < |connector| ==> 'a' <= connector[i] <= 'z' || '0' <= connector[i] <= '9' || connector[i] == '_')
    && mode in ["append", "create", "overwrite"]
    && ref != "" && forall i :: 0 <= i < |ref| ==> ref[i] != ':' && ref[i] !in SPACES
  }

  /** Only memory writes with such arguments can be remembered, each under exactly this key. */
  lemma KeyIff(p: Proposal, c: string, m: string, r: string)
    requires p.connector == Some(c) && p.mode == Str(m) && p.ref == Str(r)
    ensures DeriveKey(p) == if p.tool == "memory.write" && p.sideEffect == Write && Memorable(c, m, r)
                            then Some("memory_write:write:" + c + ":" + m + ":" + r) else None
  {
    assert KeyOf(c, m, r) == "memory_write:write:" + c + ":" + m + ":" + r;
    hide KeyOf;
  }

  lemma NoKeyWithoutArguments(p: Proposal)
    requires p.connector.None? || !p.mode.Str? || !p.ref.Str?
    ensures DeriveKey(p).None?
  {
  }

  lemma {:induction false} SplitAtColon(a: string, b: string, x: string, y: string)
    requires ':' !in a && ':' !in b && a + ":" + x == b + ":" + y
    ensures a == b && x == y
  {
    var s := a + ":" + x;
    assert s[0] == if a == "" then ':' else a[0];
    assert (b + ":" + y)[0] == if b == "" then ':' else b[0];
    if a == "" {
      assert s[1..] == x && s[1..] == y;
    } else {
      assert s[0] == a[0] == b[0];
      assert s[1..] == a[1..] + ":" + x && s[1..] == b[1..] + ":" + y;
      SplitAtColon(a[1..], b[1..], x, y);
      assert a == [a[0]] + a[1..] && b == [b[0]] + b[1..];
    }
  }

  /** Two proposals share a key only if connector, mode and ref are the same. */
  lemma KeyIsInjective(p: Proposal, q: Proposal)
    requires DeriveKey(p).Some? && DeriveKey(p) == DeriveKey(q)
    ensures p.connector == q.connector && p.mode == q.mode && p.ref == q.ref
  {
    hide IsSpace;
    var c, d := p.connector.value, q.connector.value;
    var x, y := p.mode.text + ":" + p.ref.text, q.mode.text + ":" + q.ref.text;
    assert KeyOf(c, p.mode.text, p.ref.text)[19..] == c + ":" + x;
    assert KeyOf(d, q.mode.text, q.ref.text)[19..] == d + ":" + y;
    SplitAtColon(c, d, x, y);
    SplitAtColon(p.mode.text, q.mode.text, p.ref.text, q.ref.text);
  }

  // ---- The store's own check of keys ----

  /** `[a-z0-9_]+` under IGNORECASE, on ASCII. */
  predicate IsKeyPart(s: string) {
    s != "" && forall i :: 0 <= i < |s| ==> IsWordChar(LowerChar(s[i]))
  }

  /** The store's key pattern: two parts, optionally two more, and a last part without blank or colon. */
  ghost predicate IsStoreKey(key: string) {
    exists a, b, rest ::
      && key == a + ":" + (b + ":" + rest) && IsKeyPart(a) && IsKeyPart(b)
      && (IsRef(rest) || exists c, d, ref :: rest == c + ":" + (d + ":" + ref) && IsKeyPart(c) && IsKeyPart(d) && IsRef(ref))
  }

  lemma NamesAreKeyParts(s: string)
    requires IsName(s)
    ensures IsKeyPart(s)
  {
  }

  /** Every derived key passes the store's check, so a derived key never makes the store raise. */
  lemma DerivedKeysAreStorable(p: Proposal)
    requires DeriveKey(p).Some?
    ensures IsStoreKey(DeriveKey(p).value)
  {
    var c, m, r := p.connector.value, p.mode.text, p.ref.text;
    NamesAreKeyParts(c);
    NamesAreKeyParts(m);
    KeyParts();
    FiveParts(c, m, r);
  }

  lemma KeyParts()
    ensures IsKeyPart("memory_write") && IsKeyPart("write")
  {
    NamesAreKeyParts("memory_write");
    NamesAreKeyParts("write");
  }

  lemma FiveParts(c: string, m: string, r: string)
    requires IsKeyPart(c) && IsKeyPart(m) && IsRef(r) && IsKeyPart("memory_write") && IsKeyPart("write")
    ensures IsStoreKey(KeyOf(c, m, r))
  {
    hide IsKeyPart, IsRef;
    var rest := c + ":" + (m + ":" + r);
    assert KeyOf(c, m, r) == "memory_write" + ":" + ("write" + ":" + rest);
  }
}
