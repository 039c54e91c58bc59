/**
 * The JSON text (RFC 8259) that cJSON prints, unformatted, for an object
 * whose members are all strings, and a reader for exactly that shape.
 * Strings are assumed to be printable ASCII that needs no escaping under
 * section 7 of RFC 8259: no quotation mark, no reverse solidus, no control
 * character, nothing at or above DEL. Under that assumption printing is
 * plain concatenation and every character is one byte of the C string.
 */
module Json {
  import opened Wrappers

  /**
   * A printable ASCII character that section 7 of RFC 8259 lets stand for
   * itself inside a string; it is one byte in UTF-8.
   */
  predicate SafeChar(c: char) {
    c != '"' && c != '\\' && 0x20 <= c as int < 0x7F
  }

  predicate Safe(s: string) {
    forall i :: 0 <= i < |s| ==> SafeChar(s[i])
  }

  datatype Member = Member(key: string, value: string)

  predicate SafeMembers(ms: seq<Member>) {
    forall i :: 0 <= i < |ms| ==> Safe(ms[i].key) && Safe(ms[i].value)
  }

  function Quoted(s: string): string {
    "\"" + s + "\""
  }

  function MemberText(m: Member): string {
    Quoted(m.key) + ":" + Quoted(m.value)
  }

  /** The members in order, separated by commas and no white space. */
  function MembersText(ms: seq<Member>): string {
    if |ms| == 0 then ""
    else if |ms| == 1 then MemberText(ms[0])
    else MemberText(ms[0]) + "," + MembersText(ms[1..])
  }

  /** `cJSON_PrintPreallocated(obj, buf, size, 0)` of an object of string members. */
  function Print(ms: seq<Member>): string {
    "{" + MembersText(ms) + "}"
  }

  /**
   * Does `cJSON_PrintPreallocated` succeed on a buffer of `bufsz` bytes for
   * a text of `len` characters? The text and its NUL must fit; cJSON's
   * length estimates need up to 5 bytes of slack, so with less slack than
   * that the answer is the oracle `tight`.
   */
  function PrintFits(len: nat, bufsz: nat, tight: bool): (fits: bool)
    ensures fits ==> len < bufsz
    ensures len + 5 <= bufsz ==> fits
  {
    len + 5 <= bufsz || (tight && len < bufsz)
  }

  // ---------------------------------------------------------------- reading back

  /** The first quotation mark at or after `i`, or the end of the text. */
  function QuoteEnd(s: string, i: nat): (j: nat)
    requires i <= |s|
    ensures i <= j <= |s|
    ensures j < |s| ==> s[j] == '"'
    ensures forall k :: i <= k < j ==> s[k] != '"'
    decreases |s| - i
  {
    if i == |s| || s[i] == '"' then i else QuoteEnd(s, i + 1)
  }

  /** A string literal at the front of `s`, and what follows it. */
  function ReadString(s: string): (r: Option<(string, string)>)
    ensures r.Some? ==> |r.value.1| < |s|
  {
    if |s| > 0 && s[0] == '"' then
      var j := QuoteEnd(s, 1);
      if j < |s| then Some((s[1..j], s[j + 1..])) else None
    else None
  }

  /** `"key":"value"` at the front of `s`, and what follows it. */
  function ReadMember(s: string): (r: Option<(Member, string)>)
    ensures r.Some? ==> |r.value.1| < |s|
  {
    match ReadString(s)
    case None => None
    case Some((k, r1)) =>
      if |r1| > 0 && r1[0] == ':' then
        match ReadString(r1[1..])
        case None => None
        case Some((v, r2)) => Some((Member(k, v), r2))
      else None
  }

  /** One or more members separated by commas, and what follows them. */
  function ReadMembers(s: string): (r: Option<(seq<Member>, string)>)
    ensures r.Some? ==> |r.value.0| >= 1
    decreases |s|
  {
    match ReadMember(s)
    case None => None
    case Some((m, r)) =>
      if |r| > 0 && r[0] == ',' then
        match ReadMembers(r[1..])
        case None => None
        case Some((ms, rest)) => Some(([m] + ms, rest))
      else Some(([m], r))
  }

  /** An unformatted object of string members that takes up the whole text. */
  function Parse(s: string): Option<seq<Member>> {
    if |s| >= 2 && s[0] == '{' && s[1] == '}' then
      if |s| == 2 then Some([]) else None
    else if |s| >= 1 && s[0] == '{' then
      match ReadMembers(s[1..])
      case None => None
      case Some((ms, rest)) => if rest == "}" then Some(ms) else None
    else None
  }

  // ---------------------------------------------------------------- properties

  lemma {:induction false} QuoteEndOver(s: string, i: nat, j: nat)
    requires i <= j < |s| && s[j] == '"'
    requires forall k :: i <= k < j ==> s[k] != '"'
    ensures QuoteEnd(s, i) == j
    decreases j - i
  {
    if i < j {
      QuoteEndOver(s, i + 1, j);
    }
  }

  lemma ReadQuoted(v: string, rest: string)
    requires Safe(v)
    ensures ReadString(Quoted(v) + rest) == Some((v, rest))
  {
    var s := Quoted(v) + rest;
    assert s[0] == '"' && s[|v| + 1] == '"';
    forall k | 1 <= k < |v| + 1 ensures s[k] != '"' {
      assert s[k] == v[k - 1];
    }
    QuoteEndOver(s, 1, |v| + 1);
    assert s[1..|v| + 1] == v;
    assert s[|v| + 2..] == rest;
  }

  lemma ReadMemberText(m: Member, rest: string)
    requires Safe(m.key) && Safe(m.value)
    ensures ReadMember(MemberText(m) + rest) == Some((m, rest))
  {
    var r1 := ":" + Quoted(m.value) + rest;
    assert MemberText(m) + rest == Quoted(m.key) + r1;
    ReadQuoted(m.key, r1);
    assert r1[1..] == Quoted(m.value) + rest;
    ReadQuoted(m.value, rest);
  }

  lemma ReadMembersLast(s: string, m: Member, r: string)
    requires ReadMember(s) == Some((m, r)) && (r == [] || r[0] != ',')
    ensures ReadMembers(s) == Some(([m], r))
  {
  }

  lemma ReadMembersMore(s: string, m: Member, r: string, ms: seq<Member>, rest: string)
    requires ReadMember(s) == Some((m, r)) && |r| > 0 && r[0] == ','
    requires ReadMembers(r[1..]) == Some((ms, rest))
    ensures ReadMembers(s) == Some(([m] + ms, rest))
  {
  }

  lemma CommaAssoc(a: string, b: string, rest: string)
    ensures (a + "," + b) + rest == a + ("," + (b + rest))
  {
  }

  lemma CommaTail(after: string)
    ensures ("," + after)[1..] == after
  {
  }

  lemma MembersTextCons(ms: seq<Member>, rest: string)
    requires |ms| >= 2
    ensures MembersText(ms) + rest == MemberText(ms[0]) + ("," + (MembersText(ms[1..]) + rest))
  {
    var a, b := MemberText(ms[0]), MembersText(ms[1..]);
    assert MembersText(ms) == a + "," + b;
    CommaAssoc(a, b, rest);
  }

  /** One more member in front of a list that reads back. */
  lemma ReadMembersCons(ms: seq<Member>, rest: string)
    requires |ms| >= 2 && Safe(ms[0].key) && Safe(ms[0].value)
    requires ReadMembers(MembersText(ms[1..]) + rest) == Some((ms[1..], rest))
    ensures ReadMembers(MembersText(ms) + rest) == Some((ms, rest))
  {
    var after := MembersText(ms[1..]) + rest;
    var tail := "," + after;
    MembersTextCons(ms, rest);
    ReadMemberText(ms[0], tail);
    assert tail[1..] == after by {
      CommaTail(after);
    }
    ReadMembersMore(MemberText(ms[0]) + tail, ms[0], tail, ms[1..], rest);
    assert [ms[0]] + ms[1..] == ms;
  }

  lemma {:induction false} ReadMembersText(ms: seq<Member>, rest: string)
    requires |ms| >= 1 && SafeMembers(ms)
    requires rest == [] || rest[0] != ','
    ensures ReadMembers(MembersText(ms) + rest) == Some((ms, rest))
    decreases |ms|
  {
    if |ms| == 1 {
      assert MembersText(ms) + rest == MemberText(ms[0]) + rest;
      ReadMemberText(ms[0], rest);
      ReadMembersLast(MemberText(ms[0]) + rest, ms[0], rest);
      assert [ms[0]] == ms;
    } else {
      assert SafeMembers(ms[1..]) by {
        forall i | 0 <= i < |ms[1..]| ensures Safe(ms[1..][i].key) && Safe(ms[1..][i].value) {
          assert ms[1..][i] == ms[i + 1];
        }
      }
      ReadMembersText(ms[1..], rest);
      assert Safe(ms[0].key) && Safe(ms[0].value);
      ReadMembersCons(ms, rest);
    }
  }

  lemma MembersTextStart(ms: seq<Member>)
    requires |ms| >= 1
    ensures |MembersText(ms)| >= 1 && MembersText(ms)[0] == '"'
  {
    var m := MemberText(ms[0]);
    assert m[0] == '"';
    if |ms| > 1 {
      assert MembersText(ms) == m + "," + MembersText(ms[1..]);
    }
  }

  lemma EnclosedTail(body: string)
    ensures ("{" + body + "}")[1..] == body + "}"
  {
  }

  /** Reading the printed object gives back its members, in order. */
  lemma ParsePrint(ms: seq<Member>)
    requires SafeMembers(ms)
    ensures Parse(Print(ms)) == Some(ms)
  {
    var body := MembersText(ms);
    if |ms| == 0 {
      assert Print(ms) == "{}";
    } else {
      ReadMembersText(ms, "}");
      MembersTextStart(ms);
      EnclosedTail(body);
      assert Print(ms)[1] == '"';
    }
  }

  /** Printed text of safe strings holds no NUL, so `strlen` of the buffer is its length. */
  lemma {:induction false} PrintHasNoNul(ms: seq<Member>)
    requires SafeMembers(ms)
    ensures forall i :: 0 <= i < |Print(ms)| ==> Print(ms)[i] != '\0'
  {
    MembersHaveNoNul(ms);
  }

  lemma {:induction false} MembersHaveNoNul(ms: seq<Member>)
    requires SafeMembers(ms)
    ensures forall i :: 0 <= i < |MembersText(ms)| ==> MembersText(ms)[i] != '\0'
    decreases |ms|
  {
    if |ms| > 1 {
      assert SafeMembers(ms[1..]) by {
        forall i | 0 <= i < |ms[1..]| ensures Safe(ms[1..][i].key) && Safe(ms[1..][i].value) {
          assert ms[1..][i] == ms[i + 1];
        }
      }
      MembersHaveNoNul(ms[1..]);
    }
    if |ms| >= 1 {
      assert Safe(ms[0].key) && Safe(ms[0].value);
    }
  }
}
