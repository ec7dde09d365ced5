/** How many bytes of UTF-8 a value takes in canonical JSON, which the codec bounds. */
module Canonical {
  import opened Json
  import opened Text

  const MAX_DOCUMENT_BYTES := 1_048_576

  /** The letters of `null`, and of `true`; `false` has one more. */
  const NULL_BYTES := 4

  function CharBytes(c: char): nat {
    if c < '\U{80}' then 1 else if c < '\U{800}' then 2 else if c < '\U{10000}' then 3 else 4
  }

  /** UTF-8 spends a byte on 7 bits of a code point, two on 11, three on 16 and four on the rest. */
  lemma CharBytesAre(c: char)
    ensures 1 <= CharBytes(c) <= 4
    ensures CharBytes(c) <= 1 <==> (c as int) < 128
    ensures CharBytes(c) <= 2 <==> (c as int) < 2_048
    ensures CharBytes(c) <= 3 <==> (c as int) < 65_536
  {
  }

  function Bytes(s: string): (n: nat)
    ensures |s| <= n
  {
    if s == "" then 0 else CharBytes(s[0]) + Bytes(s[1..])
  }

  /** The bytes of a string once it is quoted. */
  function QuotedBytes(s: string): nat {
    Bytes(Quote(s))
  }

  function Number(n: int): string {
    if n < 0 then "-" + Decimal(-n) else Decimal(n)
  }

  /** The commas between so many items. */
  function Commas(n: nat): nat {
    if n == 0 then 0 else n - 1
  }

  // ---------------------------------------------------------------------------------- values

  /** The bytes of a value; a float has no canonical form. */
  function Size(j: Json): nat
    decreases j, 1, 0
  {
    match j
    case Null => NULL_BYTES
    case Bool(flag) => if flag then NULL_BYTES else NULL_BYTES + 1
    case Int(n) => |Number(n)|
    case Float(_) => 0
    case Str(text) => QuotedBytes(text)
    case Arr(items) => 2 + Commas(|items|) + ItemsSize(j, |items|)
    case Obj(fields) => 2 + Commas(|fields|) + MembersSize(j, fields.Keys)
  }

  /** The bytes of the first items of an array. */
  function ItemsSize(j: Json, n: nat): nat
    requires j.Arr? && n <= |j.items|
    decreases j, 0, n
  {
    if n == 0 then 0 else ItemsSize(j, n - 1) + Size(j.items[n - 1])
  }

  function MemberSize(j: Json, key: string): nat
    requires j.Obj? && key in j.fields
    decreases j, 0, 0
  {
    QuotedBytes(key) + 1 + Size(j.fields[key])
  }

  /** The bytes of some members of an object; the order in which they are taken does not matter. */
  function MembersSize(j: Json, keys: set<string>): nat
    requires j.Obj? && keys <= j.fields.Keys
    decreases j, 0, 1 + |keys|
  {
    if keys == {} then 0
    else
      var key := First(keys);
      MemberSize(j, key) + MembersSize(j, keys - {key})
  }

  predicate IsFirst(keys: set<string>, key: string) {
    key in keys && forall other :: other in keys ==> TextLe(key, other)
  }

  function First(keys: set<string>): (key: string)
    requires keys != {}
    ensures key in keys
  {
    FirstExists(keys);
    FirstIsUnique(keys);
    var key :| key in keys && IsFirst(keys, key);
    key
  }

  lemma {:induction false} FirstExists(keys: set<string>)
    requires keys != {}
    ensures exists key :: IsFirst(keys, key)
    decreases |keys|
  {
    var some :| some in keys;
    TextLeIsTotal(some, some);
    var rest := keys - {some};
    if rest != {} {
      FirstExists(rest);
      var key :| IsFirst(rest, key);
      TextLeIsTotal(key, some);
      if TextLe(some, key) {
        forall other | other in keys ensures TextLe(some, other) {
          if other in rest {
            TextLeIsTransitive(some, key, other);
          }
        }
        assert IsFirst(keys, some);
      } else {
        assert IsFirst(keys, key);
      }
    } else {
      assert keys == {some};
      assert IsFirst(keys, some);
    }
  }

  lemma FirstIsUnique(keys: set<string>)
    ensures forall a, b :: IsFirst(keys, a) && IsFirst(keys, b) ==> a == b
  {
    forall a, b | IsFirst(keys, a) && IsFirst(keys, b) ensures a == b {
      TextLeIsTotal(a, b);
    }
  }

  /** Any member may be taken out of the sum. */
  lemma {:induction false} TakeMember(j: Json, keys: set<string>, key: string)
    requires j.Obj? && keys <= j.fields.Keys && key in keys
    ensures MembersSize(j, keys) == MemberSize(j, key) + MembersSize(j, keys - {key})
    decreases |keys|
  {
    var first := First(keys);
    if first != key {
      TakeMember(j, keys - {first}, key);
      TakeMember(j, keys - {key}, first);
      assert keys - {first} - {key} == keys - {key} - {first};
    }
  }

  /** Fewer members take no more bytes. */
  lemma {:induction false} FewerMembers(j: Json, some: set<string>, all: set<string>)
    requires j.Obj? && some <= all <= j.fields.Keys
    ensures MembersSize(j, some) <= MembersSize(j, all)
    decreases |some|
  {
    if some != {} {
      var key := First(some);
      TakeMember(j, all, key);
      FewerMembers(j, some - {key}, all - {key});
    }
  }

  lemma MemberIsPart(j: Json, key: string)
    requires j.Obj? && key in j.fields
    ensures Size(j.fields[key]) <= Size(j)
  {
    TakeMember(j, j.fields.Keys, key);
  }

  // ----------------------------------------------------------------------------------- bytes

  lemma {:induction false} BytesOfTwo(s: string, t: string)
    ensures Bytes(s + t) == Bytes(s) + Bytes(t)
  {
    if s == "" {
      assert s + t == t;
    } else {
      assert (s + t)[1..] == s[1..] + t;
      BytesOfTwo(s[1..], t);
    }
  }

  lemma {:induction false} EscapedIsLonger(s: string)
    ensures |s| <= |Escaped(s)|
  {
    if s != "" {
      EscapedIsLonger(s[1..]);
    }
  }

  /** Quoting adds at least the quotes. */
  lemma QuotedIsLonger(s: string)
    ensures |s| + 2 <= QuotedBytes(s)
  {
    EscapedIsLonger(s);
  }

  lemma {:induction false} AsciiBytes(s: string)
    requires forall i :: 0 <= i < |s| ==> s[i] < '\U{80}'
    ensures Bytes(s) == |s|
  {
    if s != "" {
      CharBytesAre(s[0]);
      AsciiBytes(s[1..]);
    }
  }

  /** A character that stands for itself and takes one byte. */
  predicate IsPlain(c: char) {
    ' ' <= c < '\U{80}' && c != '\"' && c != '\\'
  }

  lemma {:induction false} PlainEscaped(s: string)
    requires forall i :: 0 <= i < |s| ==> IsPlain(s[i])
    ensures Escaped(s) == s
  {
    if s != "" {
      PlainEscaped(s[1..]);
    }
  }

  lemma PlainQuoted(s: string)
    requires forall i :: 0 <= i < |s| ==> IsPlain(s[i])
    ensures QuotedBytes(s) == |s| + 2
  {
    PlainEscaped(s);
    AsciiBytes(s);
    BytesOfTwo("\"" + s, "\"");
    BytesOfTwo("\"", s);
    assert Bytes("\"") == 1;
  }

  /** A character takes at most the six bytes of `\u00xx`. */
  lemma EscapeBytes(c: char)
    ensures Bytes(Escape(c)) <= 6
  {
    var e := Escape(c);
    if e == [c] {
      assert Bytes(e[1..]) == 0;
    } else {
      EachIsAscii(c);
      AsciiBytes(e);
    }
  }

  lemma EachIsAscii(c: char)
    requires Escape(c) != [c]
    ensures |Escape(c)| <= 6 && forall i :: 0 <= i < |Escape(c)| ==> Escape(c)[i] < '\U{80}'
  {
    assert forall i :: 0 <= i < 16 ==> HEX[i] < '\U{80}';
  }

  lemma {:induction false} EscapedAtMost(s: string)
    ensures Bytes(Escaped(s)) <= 6 * |s|
  {
    if s != "" {
      EscapeBytes(s[0]);
      EscapedAtMost(s[1..]);
      BytesOfTwo(Escape(s[0]), Escaped(s[1..]));
    }
  }

  lemma QuotedAtMost(s: string)
    ensures QuotedBytes(s) <= 6 * |s| + 2
  {
    EscapedAtMost(s);
    BytesOfTwo("\"" + Escaped(s), "\"");
    BytesOfTwo("\"", Escaped(s));
    assert Bytes("\"") == 1;
  }

  // --------------------------------------------------------------------------------- numbers

  /** A larger number has no fewer digits. */
  lemma {:induction false} DecimalGrows(m: nat, n: nat)
    requires m <= n
    ensures |Decimal(m)| <= |Decimal(n)|
  {
    if m >= 10 {
      DecimalGrows(m / 10, n / 10);
    }
  }

  // ------------------------------------------------------------------------- smaller objects

  lemma {:induction false} SmallerMembers(i: Json, j: Json, keys: set<string>)
    requires i.Obj? && j.Obj? && keys <= i.fields.Keys && keys <= j.fields.Keys
    requires forall key :: key in keys ==> Size(i.fields[key]) <= Size(j.fields[key])
    ensures MembersSize(i, keys) <= MembersSize(j, keys)
    decreases |keys|
  {
    if keys != {} {
      SmallerMembers(i, j, keys - {First(keys)});
    }
  }

  lemma {:induction false} SubsetIsSmaller(some: set<string>, all: set<string>)
    requires some <= all
    ensures |some| <= |all|
  {
    if some != {} {
      var key :| key in some;
      SubsetIsSmaller(some - {key}, all - {key});
    }
  }

  /** An object with fewer members and smaller values takes no more bytes. */
  lemma SmallerObject(i: Json, j: Json)
    requires i.Obj? && j.Obj? && i.fields.Keys <= j.fields.Keys
    requires forall key :: key in i.fields ==> Size(i.fields[key]) <= Size(j.fields[key])
    ensures Size(i) <= Size(j)
  {
    SmallerMembers(i, j, i.fields.Keys);
    FewerMembers(j, i.fields.Keys, j.fields.Keys);
    SubsetIsSmaller(i.fields.Keys, j.fields.Keys);
    assert |i.fields| == |i.fields.Keys| && |j.fields| == |j.fields.Keys|;
  }

  /** Every member takes its name, its quotes and its colon; between two there is a comma. */
  lemma {:induction false} MembersTake(j: Json, keys: set<string>)
    requires j.Obj? && keys <= j.fields.Keys
    ensures 3 * |keys| <= MembersSize(j, keys)
    ensures forall key :: key in keys ==> |key| + 3 <= MembersSize(j, keys)
    decreases |keys|
  {
    if keys != {} {
      QuotedIsLonger(First(keys));
      MembersTake(j, keys - {First(keys)});
    }
  }
}
