/** The text that the canonical codec writes, whose bytes are what the bounds are about. */
module CanonicalText {
  import opened Wrappers
  import opened Json
  import opened Text
  import opened Canonical
  import opened AuditChain

  // ------------------------------------------------------------------------- what is accepted

  /** `v` is nested `k` levels inside `j`, which is itself at level 0. */
  ghost predicate IsAt(j: Json, k: nat, v: Json)
    decreases k
  {
    if k == 0 then v == j
    else
      match j
      case Arr(items) => exists i :: 0 <= i < |items| && IsAt(items[i], k - 1, v)
      case Obj(fields) => exists key :: key in fields && IsAt(fields[key], k - 1, v)
      case _ => false
  }

  /** What the profile lets stand at a level. */
  predicate IsAllowed(v: Json, level: nat) {
    level <= 64 && !v.Float? && (v.Int? ==> -9_007_199_254_740_991 <= v.number <= 9_007_199_254_740_991)
  }

  ghost predicate AllAllowed(j: Json, level: nat) {
    forall k: nat, v :: IsAt(j, k, v) ==> IsAllowed(v, level + k)
  }

  lemma AllowedInside(j: Json, inner: Json, level: nat)
    requires AllAllowed(j, level) && ((j.Arr? && inner in j.items) || (j.Obj? && inner in j.fields.Values))
    ensures AllAllowed(inner, level + 1)
  {
    forall k: nat, v | IsAt(inner, k, v) ensures IsAllowed(v, level + 1 + k) {
      assert IsAt(j, k + 1, v);
    }
  }

  lemma AllowedOutside(j: Json, level: nat)
    requires IsAllowed(j, level)
    requires j.Arr? ==> forall i :: 0 <= i < |j.items| ==> AllAllowed(j.items[i], level + 1)
    requires j.Obj? ==> forall key :: key in j.fields ==> AllAllowed(j.fields[key], level + 1)
    ensures AllAllowed(j, level)
  {
    forall k: nat, v | IsAt(j, k, v) ensures IsAllowed(v, level + k) {
      if k > 0 && j.Arr? {
        var i :| 0 <= i < |j.items| && IsAt(j.items[i], k - 1, v);
        assert AllAllowed(j.items[i], level + 1);
      } else if k > 0 && j.Obj? {
        var key :| key in j.fields && IsAt(j.fields[key], k - 1, v);
        assert AllAllowed(j.fields[key], level + 1);
      }
    }
  }

  /** The profile is about each value in a document by itself, and how deep it is nested. */
  lemma {:induction false} InProfileIff(j: Json, level: nat)
    ensures InProfile(j, level) <==> AllAllowed(j, level)
    decreases j
  {
    if InProfile(j, level) {
      ProfileAllows(j, level);
    }
    if AllAllowed(j, level) {
      AllowedIsProfile(j, level);
    }
  }

  lemma {:induction false} ProfileAllows(j: Json, level: nat)
    requires InProfile(j, level)
    ensures AllAllowed(j, level)
    decreases j
  {
    if j.Arr? {
      forall i | 0 <= i < |j.items| ensures AllAllowed(j.items[i], level + 1) {
        ProfileAllows(j.items[i], level + 1);
      }
    } else if j.Obj? {
      forall key | key in j.fields ensures AllAllowed(j.fields[key], level + 1) {
        ProfileAllows(j.fields[key], level + 1);
      }
    }
    AllowedOutside(j, level);
  }

  lemma {:induction false} AllowedIsProfile(j: Json, level: nat)
    requires AllAllowed(j, level)
    ensures InProfile(j, level)
    decreases j
  {
    assert IsAt(j, 0, j) && IsAllowed(j, level + 0);
    if j.Arr? {
      forall i | 0 <= i < |j.items| ensures InProfile(j.items[i], level + 1) {
        AllowedInside(j, j.items[i], level);
        AllowedIsProfile(j.items[i], level + 1);
      }
    } else if j.Obj? {
      forall key | key in j.fields ensures InProfile(j.fields[key], level + 1) {
        AllowedInside(j, j.fields[key], level);
        AllowedIsProfile(j.fields[key], level + 1);
      }
    }
  }

  // ----------------------------------------------------------------------------- characters

  /** The value of a hexadecimal digit in lower case, or 16. */
  function Digit(c: char): nat {
    if '0' <= c <= '9' then c as int - '0' as int
    else if 'a' <= c <= 'f' then c as int - 'a' as int + 10
    else 16
  }

  /** How a JSON string is read: the first character that it stands for, and how many it takes to say so. */
  function ReadChar(s: string): Option<(char, nat)> {
    if s == "" || s[0] < ' ' || s[0] == '\"' then None
    else if s[0] != '\\' then Some((s[0], 1))
    else if |s| < 2 then None
    else
      match s[1]
      case '\"' => Some(('\"', 2))
      case '\\' => Some(('\\', 2))
      case 'b' => Some((8 as char, 2))
      case 't' => Some((9 as char, 2))
      case 'n' => Some((10 as char, 2))
      case 'f' => Some((12 as char, 2))
      case 'r' => Some((13 as char, 2))
      case 'u' =>
        if |s| < 6 || s[2] != '0' || s[3] != '0' || Digit(s[4]) > 15 || Digit(s[5]) > 15 then None
        else Some(((16 * Digit(s[4]) + Digit(s[5])) as char, 6))
      case _ => None
  }

  /** What is between the quotes of a JSON string; `None` when it is none. */
  function Unescaped(s: string): Option<string>
    decreases |s|
  {
    if s == "" then Some("")
    else
      var first := ReadChar(s);
      if first.None? || first.value.1 == 0 || first.value.1 > |s| then None
      else
        var rest := Unescaped(s[first.value.1..]);
        if rest.None? then None else Some([first.value.0] + rest.value)
  }

  lemma HexDigits(k: nat)
    requires k < 16
    ensures Digit(HEX[k]) == k
  {
  }

  /** An escape stands for its character; of those that do it is the shortest, and in lower case. */
  lemma EscapeReadsBack(c: char, rest: string)
    ensures ReadChar(Escape(c) + rest) == Some((c, |Escape(c)|))
    ensures |Escape(c)| == if c in {'\"', '\\', 8 as char, 9 as char, 10 as char, 12 as char, 13 as char} then 2
                           else if (c as int) < 32 then 6 else 1
  {
    if (c as int) < 32 {
      HexDigits(c as int / 16);
      HexDigits(c as int % 16);
    }
  }

  /** What is written between quotes reads back as the text. */
  lemma {:induction false} EscapedReadsBack(s: string)
    ensures Unescaped(Escaped(s)) == Some(s)
  {
    if s != "" {
      var first, rest := Escape(s[0]), Escaped(s[1..]);
      EscapeReadsBack(s[0], rest);
      EscapedReadsBack(s[1..]);
      assert (first + rest)[|first|..] == rest;
      assert s == [s[0]] + s[1..];
    }
  }

  // -------------------------------------------------------------------------------- numbers

  /** The number that decimal digits spell. */
  function ReadDecimal(s: string): nat {
    if s == "" then 0 else 10 * ReadDecimal(s[..|s| - 1]) + Digit(s[|s| - 1])
  }

  /** A number is written in decimal digits, with no leading zero. */
  lemma {:induction false} DecimalReadsBack(n: nat)
    ensures ReadDecimal(Decimal(n)) == n
    ensures forall i :: 0 <= i < |Decimal(n)| ==> '0' <= Decimal(n)[i] <= '9'
    ensures Decimal(n)[0] == '0' ==> n == 0
  {
    var s := Decimal(n);
    if n < 10 {
      assert s[..0] == "";
    } else {
      DecimalReadsBack(n / 10);
      assert s[..|s| - 1] == Decimal(n / 10);
      assert s[0] == Decimal(n / 10)[0];
    }
  }

  function WrittenNumber(n: int): string {
    if n < 0 then "-" + Decimal(-n) else Decimal(n)
  }

  // --------------------------------------------------------------------------------- values

  /** The canonical text of a value: no white space, and the members of an object in the order of their names. */
  function Written(j: Json): string
    decreases j, 1, 0
  {
    match j
    case Null => "null"
    case Bool(flag) => if flag then "true" else "false"
    case Int(n) => WrittenNumber(n)
    case Float(_) => ""
    case Str(text) => "\"" + Escaped(text) + "\""
    case Arr(items) => "[" + WrittenItems(j, |items|) + "]"
    case Obj(fields) => "{" + WrittenMembers(j, fields.Keys) + "}"
  }

  function WrittenItems(j: Json, n: nat): string
    requires j.Arr? && n <= |j.items|
    decreases j, 0, n
  {
    if n == 0 then ""
    else WrittenItems(j, n - 1) + (if n == 1 then "" else ",") + Written(j.items[n - 1])
  }

  function WrittenMembers(j: Json, keys: set<string>): string
    requires j.Obj? && keys <= j.fields.Keys
    decreases j, 0, 1 + |keys|
  {
    if keys == {} then ""
    else
      var key := First(keys);
      var member := "\"" + Escaped(key) + "\":" + Written(j.fields[key]);
      member + (if keys == {key} then "" else "," + WrittenMembers(j, keys - {key}))
  }

  lemma BytesOfThree(a: string, b: string, c: string)
    ensures Bytes(a + b + c) == Bytes(a) + Bytes(b) + Bytes(c)
  {
    BytesOfTwo(a + b, c);
    BytesOfTwo(a, b);
  }

  lemma QuotedBytesAre(s: string)
    ensures Bytes("\"" + Escaped(s) + "\"") == QuotedBytes(s)
    ensures Bytes("\"" + Escaped(s) + "\":") == QuotedBytes(s) + 1
  {
    BytesOfThree("\"", Escaped(s), "\"");
    BytesOfThree("\"", Escaped(s), "\":");
    AsciiBytes("\"");
    AsciiBytes("\":");
  }

  lemma NumberBytes(n: int)
    ensures Bytes(WrittenNumber(n)) == |Number(n)|
  {
    if n < 0 {
      DecimalReadsBack(-n);
    } else {
      DecimalReadsBack(n);
    }
    AsciiBytes(WrittenNumber(n));
  }

  /** The size of a value is the number of bytes of its text. */
  lemma {:induction false} SizeIsBytes(j: Json)
    ensures Size(j) == Bytes(Written(j))
    decreases j, 1, 0
  {
    match j
    case Null => AsciiBytes("null");
    case Bool(_) => AsciiBytes(Written(j));
    case Int(n) => NumberBytes(n);
    case Float(_) =>
    case Str(text) => QuotedBytesAre(text);
    case Arr(items) =>
      ItemsAreBytes(j, |items|);
      BytesOfThree("[", WrittenItems(j, |items|), "]");
      AsciiBytes("[");
      AsciiBytes("]");
    case Obj(fields) =>
      MembersAreBytes(j, fields.Keys);
      BytesOfThree("{", WrittenMembers(j, fields.Keys), "}");
      AsciiBytes("{");
      AsciiBytes("}");
  }

  lemma {:induction false} ItemsAreBytes(j: Json, n: nat)
    requires j.Arr? && n <= |j.items|
    ensures Commas(n) + ItemsSize(j, n) == Bytes(WrittenItems(j, n))
    decreases j, 0, n
  {
    if n > 0 {
      var comma := if n == 1 then "" else ",";
      ItemsAreBytes(j, n - 1);
      SizeIsBytes(j.items[n - 1]);
      BytesOfThree(WrittenItems(j, n - 1), comma, Written(j.items[n - 1]));
      AsciiBytes(comma);
    }
  }

  lemma {:induction false} MembersAreBytes(j: Json, keys: set<string>)
    requires j.Obj? && keys <= j.fields.Keys
    ensures Commas(|keys|) + MembersSize(j, keys) == Bytes(WrittenMembers(j, keys))
    decreases j, 0, 1 + |keys|
  {
    if keys != {} {
      var key := First(keys);
      var rest := keys - {key};
      var name := "\"" + Escaped(key) + "\":";
      SizeIsBytes(j.fields[key]);
      QuotedBytesAre(key);
      BytesOfTwo(name, Written(j.fields[key]));
      if keys != {key} {
        MembersAreBytes(j, rest);
        AfterComma(name + Written(j.fields[key]), WrittenMembers(j, rest));
        assert rest != {};
      } else {
        assert name + Written(j.fields[key]) + "" == name + Written(j.fields[key]);
      }
    }
  }

  lemma AfterComma(a: string, b: string)
    ensures Bytes(a + ("," + b)) == Bytes(a) + 1 + Bytes(b)
  {
    BytesOfTwo(a, "," + b);
    BytesOfTwo(",", b);
    AsciiBytes(",");
  }

  // ---------------------------------------------------------------------------- audit records

  predicate IsPlainText(s: string) {
    forall i :: 0 <= i < |s| ==> IsPlain(s[i])
  }

  /** A member of an object: its name, which needs no escape, and its value. */
  datatype Member = Member(name: string, value: Json)

  function Joined(members: seq<Member>): string {
    if members == [] then ""
    else
      var last := members[|members| - 1];
      Joined(members[..|members| - 1]) + (if |members| == 1 then "\"" else ",\"") + last.name + "\":" + Written(last.value)
  }

  /** The names and the values without what is between them. */
  function Parts(members: seq<Member>): nat {
    if members == [] then 0
    else Parts(members[..|members| - 1]) + |members[|members| - 1].name| + Size(members[|members| - 1].value)
  }

  lemma MemberBytes(before: string, quote: string, name: string, value: Json)
    requires IsPlainText(name) && (quote == "\"" || quote == ",\"")
    ensures Bytes(before + quote + name + "\":" + Written(value)) == Bytes(before) + |quote| + |name| + 2 + Size(value)
  {
    BytesOfTwo(before + quote + name + "\":", Written(value));
    BytesOfTwo(before + quote + name, "\":");
    BytesOfThree(before, quote, name);
    SizeIsBytes(value);
    AsciiBytes(quote);
    AsciiBytes("\":");
    AsciiBytes(name);
  }

  lemma {:induction false} JoinedBytes(members: seq<Member>)
    requires forall m :: m in members ==> IsPlainText(m.name)
    ensures Bytes(Joined(members)) == Parts(members) + 3 * |members| + Commas(|members|)
  {
    if members != [] {
      var init, last := members[..|members| - 1], members[|members| - 1];
      JoinedBytes(init);
      MemberBytes(Joined(init), if |members| == 1 then "\"" else ",\"", last.name, last.value);
    }
  }

  /** What the chain hashes of a row, in the order of the names. */
  function RecordMembers(r: Record, id: string): seq<Member> {
    [Member("action", Str(r.entry.action)), Member("actor_id", Str(r.entry.actorId)),
     Member("actor_seq", Int(r.entry.actorSeq)),
     Member("after", if r.entry.after.Some? then Obj(r.entry.after.value) else Null),
     Member("before", if r.entry.before.Some? then Obj(r.entry.before.value) else Null),
     Member("created_at", Int(r.createdAtMicros)), Member("id", Str(id)),
     Member("object_ref", if r.entry.objectRef.Some? then Str(r.entry.objectRef.value) else Null),
     Member("source", Str(r.entry.source))]
  }

  function RecordText(r: Record, id: string): string {
    "{" + Joined(RecordMembers(r, id)) + "}"
  }

  lemma FirstFiveParts(m: seq<Member>, r: Record, id: string)
    requires m == RecordMembers(r, id)
    ensures Parts(m[..5]) == 34 + QuotedBytes(r.entry.action) + QuotedBytes(r.entry.actorId) + |Number(r.entry.actorSeq)|
                             + Size(SnapshotJson(r.entry.after)) + Size(SnapshotJson(r.entry.before))
  {
    assert Parts(m[..0]) == 0;
    FirstParts(m, 1);
    FirstParts(m, 2);
    FirstParts(m, 3);
    FirstParts(m, 4);
    FirstParts(m, 5);
  }

  lemma LastFourParts(m: seq<Member>, r: Record, id: string)
    requires m == RecordMembers(r, id)
    ensures Parts(m) == Parts(m[..5]) + 28 + |Number(r.createdAtMicros)| + Size(Str(id)) + Size(FieldValue(r, 6))
                        + Size(Str(r.entry.source))
  {
    assert |m[5].name| == 10 && |m[6].name| == 2 && |m[7].name| == 10 && |m[8].name| == 6;
    assert m[5].value == Int(r.createdAtMicros) && m[6].value == Str(id);
    assert m[7].value == FieldValue(r, 6) && m[8].value == Str(r.entry.source);
    OfNine(m);
  }

  lemma LastTwoParts(m: seq<Member>, n: nat)
    requires 2 <= n <= |m|
    ensures Parts(m[..n]) == Parts(m[..n - 2]) + |m[n - 2].name| + Size(m[n - 2].value) + |m[n - 1].name| + Size(m[n - 1].value)
  {
    FirstParts(m, n - 1);
    FirstParts(m, n);
  }

  lemma OfNine(m: seq<Member>)
    requires |m| == 9
    ensures Parts(m) == Parts(m[..5]) + |m[5].name| + Size(m[5].value) + |m[6].name| + Size(m[6].value)
                        + |m[7].name| + Size(m[7].value) + |m[8].name| + Size(m[8].value)
  {
    LastTwoParts(m, 7);
    LastTwoParts(m, 9);
    assert m[..9] == m;
  }

  /** Nine members, one after the other. */
  lemma RecordParts(r: Record, id: string)
    requires |id| == 26 && IsPlainText(id)
    ensures Parts(RecordMembers(r, id)) + 3 * 9 + 8 + 2 == RecordSize(r)
  {
    var m := RecordMembers(r, id);
    PlainQuoted(id);
    FirstFiveParts(m, r, id);
    LastFourParts(m, r, id);
    RecordSizeIs(r);
  }

  lemma FirstParts(members: seq<Member>, n: nat)
    requires 0 < n <= |members|
    ensures Parts(members[..n]) == Parts(members[..n - 1]) + |members[n - 1].name| + Size(members[n - 1].value)
  {
    assert members[..n][..n - 1] == members[..n - 1];
  }

  /** The size of a record is the number of bytes of the text that is hashed, whatever the 26 characters of its id are. */
  lemma RecordSizeIsBytes(r: Record, id: string)
    requires |id| == 26 && IsPlainText(id)
    ensures RecordSize(r) == Bytes(RecordText(r, id))
  {
    var m := RecordMembers(r, id);
    RecordNamesArePlain(r, id);
    JoinedBytes(m);
    RecordParts(r, id);
    BytesOfThree("{", Joined(m), "}");
    AsciiBytes("{");
    AsciiBytes("}");
  }

  lemma RecordNamesArePlain(r: Record, id: string)
    ensures forall m :: m in RecordMembers(r, id) ==> IsPlainText(m.name)
  {
    NamesArePlain();
  }

  lemma NamesArePlain()
    ensures IsPlainText("action") && IsPlainText("actor_id") && IsPlainText("actor_seq") && IsPlainText("after")
    ensures IsPlainText("before") && IsPlainText("created_at") && IsPlainText("id")
    ensures IsPlainText("object_ref") && IsPlainText("source")
  {
  }

  /** A record can be written exactly when its numbers are exact, its details in the profile and its text within a mebibyte. */
  lemma EncodableIff(e: Entry, id: string)
    requires |id| == 26 && IsPlainText(id)
    ensures Encodable(ChainRecord(e)) <==>
            && (forall m :: m in RecordMembers(ChainRecord(e), id) ==> AllAllowed(m.value, 1))
            && Bytes(RecordText(ChainRecord(e), id)) <= 1_048_576
  {
    var r := ChainRecord(e);
    RecordSizeIsBytes(r, id);
    ValuesInProfile(r, id);
  }

  lemma ValuesInProfile(r: Record, id: string)
    ensures (forall m :: m in RecordMembers(r, id) ==> AllAllowed(m.value, 1))
       <==> && IsSafeInt(r.entry.actorSeq) && IsSafeInt(r.createdAtMicros)
            && InProfile(SnapshotJson(r.entry.before), 1) && InProfile(SnapshotJson(r.entry.after), 1)
  {
    var members := RecordMembers(r, id);
    TextIsInProfile(members[0].value);
    TextIsInProfile(members[1].value);
    InProfileIff(members[2].value, 1);
    InProfileIff(members[3].value, 1);
    InProfileIff(members[4].value, 1);
    InProfileIff(members[5].value, 1);
    TextIsInProfile(members[6].value);
    TextIsInProfile(members[7].value);
    TextIsInProfile(members[8].value);
    assert members[2] in members && members[3] in members && members[4] in members && members[5] in members;
  }

  lemma TextIsInProfile(j: Json)
    requires j.Str? || j.Null?
    ensures AllAllowed(j, 1)
  {
    InProfileIff(j, 1);
  }
}
