/** The three messages of user_service.proto as values: what their wire form is, how the parse
    tables read it back, and what merging means. `utf8` stands for the runtime's UTF-8 check. */
module Codec {
  import opened Wrappers
  import opened Wire

  datatype UserValue = UserValue(password: Bytes, email: Bytes)
  datatype RequestValue = RequestValue(user: Option<UserValue>)
  datatype ResponseValue = ResponseValue(token: Bytes, userId: Int64)

  const EMPTY_USER := UserValue([], [])
  const EMPTY_REQUEST := RequestValue(None)
  const EMPTY_RESPONSE := ResponseValue([], 0)

  // ----- the wire form --------------------------------------------------------------------

  function StringBytes(tag: Byte, s: Bytes): Bytes {
    if s == [] then [] else [tag] + (Varint(|s|) + s)
  }

  function UserBytes(u: UserValue): Bytes {
    StringBytes(10, u.password) + StringBytes(18, u.email)
  }

  function RequestBytes(r: RequestValue): Bytes {
    match r.user
    case None => []
    case Some(u) => [10] + (Varint(|UserBytes(u)|) + UserBytes(u))
  }

  function IdBytes(v: Int64): Bytes {
    if v == 0 then [] else [16] + Varint(ToUnsigned(v))
  }

  function ResponseBytes(r: ResponseValue): Bytes {
    StringBytes(10, r.token) + IdBytes(r.userId)
  }

  // ----- parsing by the tables ------------------------------------------------------------

  /** Applies records one after the other, stopping at the first one that is rejected. */
  function Apply<M>(step: (M, Field) -> Option<M>, m: M, fs: seq<Field>): Option<M>
    decreases |fs|
  {
    if fs == [] then Some(m)
    else match step(m, fs[0])
      case None => None
      case Some(m') => Apply(step, m', fs[1..])
  }

  /** Parses `s` on top of `m`, as the runtime does for a message that is already there. */
  function Parse<M>(step: (M, Field) -> Option<M>, m: M, s: Bytes): Option<M> {
    match ParseFields(s)
    case None => None
    case Some(fs) => Apply(step, m, fs)
  }

  lemma {:induction false} ApplyConcat<M>(step: (M, Field) -> Option<M>, m: M, fs: seq<Field>, gs: seq<Field>)
    ensures Apply(step, m, fs + gs) ==
            match Apply(step, m, fs) { case None => None case Some(m') => Apply(step, m', gs) }
    decreases |fs|
  {
    if fs == [] {
      assert fs + gs == gs;
    } else {
      assert (fs + gs)[1..] == fs[1..] + gs;
      if step(m, fs[0]).Some? { ApplyConcat(step, step(m, fs[0]).value, fs[1..], gs); }
    }
  }

  /** Parsing a concatenation parses the second part on top of the result of the first. */
  lemma {:induction false} ParseInParts<M>(step: (M, Field) -> Option<M>, m: M, s: Bytes, t: Bytes)
    requires Parse(step, m, s).Some?
    ensures Parse(step, m, s + t) == Parse(step, Parse(step, m, s).value, t)
  {
    ParseConcat(s, t);
    if ParseFields(t).Some? { ApplyConcat(step, m, ParseFields(s).value, ParseFields(t).value); }
  }

  lemma ApplyOne<M>(step: (M, Field) -> Option<M>, m: M, f: Field)
    ensures Apply(step, m, [f]) == step(m, f)
  {
    assert [f][1..] == [];
  }

  /** One record into a User. Records that no table entry names are kept as unknown fields by the
      runtime and leave the fields of the message alone. */
  function UserField(utf8: Bytes -> bool, u: UserValue, f: Field): Option<UserValue> {
    match f
    case Field(1, Payload(b)) => if utf8(b) then Some(u.(password := b)) else None
    case Field(2, Payload(b)) => if utf8(b) then Some(u.(email := b)) else None
    case _ => Some(u)
  }

  /** Parses `s` on top of `u`, as the runtime does for a sub-message that is already present. */
  function ParseUser(utf8: Bytes -> bool, u: UserValue, s: Bytes): Option<UserValue> {
    Parse((u: UserValue, f: Field) => UserField(utf8, u, f), u, s)
  }

  function RequestField(utf8: Bytes -> bool, r: RequestValue, f: Field): Option<RequestValue> {
    match f
    case Field(1, Payload(b)) =>
      (match ParseUser(utf8, if r.user.Some? then r.user.value else EMPTY_USER, b)
       case None => None
       case Some(u) => Some(RequestValue(Some(u))))
    case _ => Some(r)
  }

  function ParseRequest(utf8: Bytes -> bool, r: RequestValue, s: Bytes): Option<RequestValue> {
    Parse((r: RequestValue, f: Field) => RequestField(utf8, r, f), r, s)
  }

  function ResponseField(utf8: Bytes -> bool, r: ResponseValue, f: Field): Option<ResponseValue> {
    match f
    case Field(1, Payload(b)) => if utf8(b) then Some(r.(token := b)) else None
    case Field(2, VarintValue(n)) => Some(r.(userId := ToSigned(n % TWO_64)))
    case _ => Some(r)
  }

  function ParseResponse(utf8: Bytes -> bool, r: ResponseValue, s: Bytes): Option<ResponseValue> {
    Parse((r: ResponseValue, f: Field) => ResponseField(utf8, r, f), r, s)
  }

  // ----- the bytes, one by one ------------------------------------------------------------

  /** From position `at` on, `b` has the tag byte, the length and the payload. */
  ghost predicate HasRecord(b: Bytes, at: nat, tag: Byte, payload: Bytes) {
    var n := |Varint(|payload|)|;
    && at + 1 + n + |payload| <= |b|
    && b[at] == tag && b[at + 1..at + 1 + n] == Varint(|payload|) && b[at + 1 + n..at + 1 + n + |payload|] == payload
  }

  ghost function RecordSize(payload: Bytes): nat { 1 + |Varint(|payload|)| + |payload| }

  /** A User is the record of field 1 with the password and that of field 2 with the email, both
      length-delimited; an empty string has none. */
  lemma UserWireForm(u: UserValue)
    ensures var p := if u.password == [] then 0 else RecordSize(u.password);
            && (u.password != [] ==> HasRecord(UserBytes(u), 0, 0x0A, u.password))
            && (u.email != [] ==> HasRecord(UserBytes(u), p, 0x12, u.email))
            && |UserBytes(u)| == p + if u.email == [] then 0 else RecordSize(u.email)
  {
    StringRecord(10, u.password);
    StringRecord(18, u.email);
    if u.email != [] { RecordAfter(StringBytes(10, u.password), StringBytes(18, u.email), 18, u.email); }
    if u.password != [] { RecordBefore(StringBytes(10, u.password), StringBytes(18, u.email), 10, u.password); }
  }

  lemma Delimited(tag: Byte, s: Bytes)
    ensures HasRecord([tag] + (Varint(|s|) + s), 0, tag, s) && |[tag] + (Varint(|s|) + s)| == RecordSize(s)
  {
    var v := Varint(|s|);
    var b, n := [tag] + (v + s), |v|;
    assert b[1..] == v + s;
    assert b[1..1 + n] == v && b[1 + n..1 + n + |s|] == s;
  }

  lemma StringRecord(tag: Byte, s: Bytes)
    ensures s != [] ==> HasRecord(StringBytes(tag, s), 0, tag, s) && |StringBytes(tag, s)| == RecordSize(s)
  {
    if s != [] { Delimited(tag, s); }
  }

  lemma RecordBefore(b: Bytes, c: Bytes, tag: Byte, payload: Bytes)
    requires HasRecord(b, 0, tag, payload)
    ensures HasRecord(b + c, 0, tag, payload)
  {
    var n := |Varint(|payload|)|;
    assert (b + c)[1..1 + n] == b[1..1 + n] && (b + c)[1 + n..1 + n + |payload|] == b[1 + n..1 + n + |payload|];
  }

  lemma RecordAfter(b: Bytes, c: Bytes, tag: Byte, payload: Bytes)
    requires HasRecord(c, 0, tag, payload)
    ensures HasRecord(b + c, |b|, tag, payload)
  {
    var at, n := |b|, |Varint(|payload|)|;
    assert (b + c)[at + 1..at + 1 + n] == c[1..1 + n];
    assert (b + c)[at + 1 + n..at + 1 + n + |payload|] == c[1 + n..1 + n + |payload|];
  }

  /** A LoginRequest is the record of field 1 with its User, even if that has no bytes, or nothing. */
  lemma RequestWireForm(r: RequestValue)
    ensures r.user.None? ==> RequestBytes(r) == []
    ensures r.user.Some? ==>
              var b := UserBytes(r.user.value);
              HasRecord(RequestBytes(r), 0, 0x0A, b) && |RequestBytes(r)| == RecordSize(b)
  {
    if r.user.Some? { Delimited(10, UserBytes(r.user.value)); }
  }

  /** A LoginResponse is the record of field 1 with the token and that of field 2 with the id as a
      varint; an empty token and a zero id have none. */
  lemma ResponseWireForm(r: ResponseValue)
    ensures var p := if r.token == [] then 0 else RecordSize(r.token);
            && (r.token != [] ==> HasRecord(ResponseBytes(r), 0, 0x0A, r.token))
            && (r.userId == 0 ==> |ResponseBytes(r)| == p)
            && (r.userId != 0 ==>
                  && |ResponseBytes(r)| == p + 1 + |Varint(ToUnsigned(r.userId))|
                  && ResponseBytes(r)[p] == 0x10 && ResponseBytes(r)[p + 1..] == Varint(ToUnsigned(r.userId)))
  {
    StringRecord(10, r.token);
    if r.token != [] { RecordBefore(StringBytes(10, r.token), IdBytes(r.userId), 10, r.token); }
    if r.userId != 0 { VarintAfter(StringBytes(10, r.token), 16, Varint(ToUnsigned(r.userId))); }
  }

  lemma VarintAfter(b: Bytes, tag: Byte, v: Bytes)
    ensures var c := b + ([tag] + v); |c| == |b| + 1 + |v| && c[|b|] == tag && c[|b| + 1..] == v
  {
    assert (b + ([tag] + v))[|b| + 1..] == ([tag] + v)[1..] == v;
  }

  // ----- what the tables do not name ------------------------------------------------------

  predicate UserKnows(f: Field) { (f.number == 1 || f.number == 2) && f.value.Payload? }

  predicate RequestKnows(f: Field) { f.number == 1 && f.value.Payload? }

  predicate ResponseKnows(f: Field) {
    (f.number == 1 && f.value.Payload?) || (f.number == 2 && f.value.VarintValue?)
  }

  /** Records that leave a message alone can be left out. */
  lemma {:induction false} ApplyIdle<M>(step: (M, Field) -> Option<M>, m: M, fs: seq<Field>)
    requires forall i | 0 <= i < |fs| :: step(m, fs[i]) == Some(m)
    ensures Apply(step, m, fs) == Some(m)
    decreases |fs|
  {
    if fs != [] { ApplyIdle(step, m, fs[1..]); }
  }

  lemma {:induction false} ParseIdle<M>(step: (M, Field) -> Option<M>, m: M, r: Bytes, s: Bytes)
    requires ParseFields(r).Some?
    requires forall i | 0 <= i < |ParseFields(r).value| :: step(m, ParseFields(r).value[i]) == Some(m)
    ensures Parse(step, m, r + s) == Parse(step, m, s)
  {
    ApplyIdle(step, m, ParseFields(r).value);
    ParseInParts(step, m, r, s);
  }

  /** Well-formed records of other fields, or of a known field with another wire type, change no
      field of the message, whatever their number and place. */
  lemma UnknownRecordsAreSkipped(utf8: Bytes -> bool, u: UserValue, q: RequestValue, p: ResponseValue,
                                 r: Bytes, s: Bytes)
    requires ParseFields(r).Some?
    ensures (forall i | 0 <= i < |ParseFields(r).value| :: !UserKnows(ParseFields(r).value[i])) ==>
              ParseUser(utf8, u, r + s) == ParseUser(utf8, u, s)
    ensures (forall i | 0 <= i < |ParseFields(r).value| :: !RequestKnows(ParseFields(r).value[i])) ==>
              ParseRequest(utf8, q, r + s) == ParseRequest(utf8, q, s)
    ensures (forall i | 0 <= i < |ParseFields(r).value| :: !ResponseKnows(ParseFields(r).value[i])) ==>
              ParseResponse(utf8, p, r + s) == ParseResponse(utf8, p, s)
  {
    var fs := ParseFields(r).value;
    if forall i | 0 <= i < |fs| :: !UserKnows(fs[i]) {
      ParseIdle((u: UserValue, f: Field) => UserField(utf8, u, f), u, r, s);
    }
    if forall i | 0 <= i < |fs| :: !RequestKnows(fs[i]) {
      ParseIdle((r: RequestValue, f: Field) => RequestField(utf8, r, f), q, r, s);
    }
    if forall i | 0 <= i < |fs| :: !ResponseKnows(fs[i]) {
      ParseIdle((r: ResponseValue, f: Field) => ResponseField(utf8, r, f), p, r, s);
    }
  }

  // ----- merging --------------------------------------------------------------------------

  function MergeUser(to: UserValue, from: UserValue): UserValue {
    UserValue(if from.password != [] then from.password else to.password,
              if from.email != [] then from.email else to.email)
  }

  function MergeRequest(to: RequestValue, from: RequestValue): RequestValue {
    if from.user.None? then to
    else if to.user.None? then from
    else RequestValue(Some(MergeUser(to.user.value, from.user.value)))
  }

  function MergeResponse(to: ResponseValue, from: ResponseValue): ResponseValue {
    ResponseValue(if from.token != [] then from.token else to.token,
                  if from.userId != 0 then from.userId else to.userId)
  }

  // ----- parsing what was serialized ------------------------------------------------------

  ghost predicate UserIsUtf8(utf8: Bytes -> bool, u: UserValue) {
    (u.password == [] || utf8(u.password)) && (u.email == [] || utf8(u.email))
  }

  ghost function StringField(number: nat, s: Bytes): seq<Field> {
    if s == [] then [] else [Field(number, Payload(s))]
  }

  lemma ParsePayload(number: nat, b: Bytes)
    requires 1 <= number < 16 && |b| <= INT_MAX
    ensures ParseFields([8 * number + 2] + (Varint(|b|) + b)) == Some([Field(number, Payload(b))])
  {
    ReadPayload(b);
    ParseRecord(number, 2, Varint(|b|) + b, Payload(b));
  }

  lemma ParseStringBytes(number: nat, s: Bytes)
    requires 1 <= number < 16 && |s| <= INT_MAX
    ensures ParseFields(StringBytes(8 * number + 2, s)) == Some(StringField(number, s))
  {
    if s != [] { ParsePayload(number, s); }
  }

  lemma ParseUserBytes(u: UserValue)
    requires |UserBytes(u)| <= INT_MAX
    ensures ParseFields(UserBytes(u)) == Some(StringField(1, u.password) + StringField(2, u.email))
  {
    ParseStringBytes(1, u.password);
    ParseStringBytes(2, u.email);
    ParseConcat(StringBytes(10, u.password), StringBytes(18, u.email));
  }

  /** Parsing a serialized User on top of another one is merging; it fails exactly when a
      non-empty string is not valid UTF-8. */
  lemma {:induction false} ParseUserMerges(utf8: Bytes -> bool, to: UserValue, u: UserValue)
    requires |UserBytes(u)| <= INT_MAX
    ensures ParseUser(utf8, to, UserBytes(u)) == if UserIsUtf8(utf8, u) then Some(MergeUser(to, u)) else None
  {
    ParseUserBytes(u);
    var step := (u: UserValue, f: Field) => UserField(utf8, u, f);
    ApplyConcat(step, to, StringField(1, u.password), StringField(2, u.email));
    ApplyOne(step, to, Field(1, Payload(u.password)));
    ApplyOne(step, MergeUser(to, u.(email := [])), Field(2, Payload(u.email)));
  }

  ghost predicate RequestIsUtf8(utf8: Bytes -> bool, r: RequestValue) {
    r.user.Some? ==> UserIsUtf8(utf8, r.user.value)
  }

  lemma ParseRequestBytes(r: RequestValue)
    requires |RequestBytes(r)| <= INT_MAX
    ensures ParseFields(RequestBytes(r)) ==
            Some(if r.user.None? then [] else [Field(1, Payload(UserBytes(r.user.value)))])
  {
    if r.user.Some? { ParsePayload(1, UserBytes(r.user.value)); }
  }

  lemma {:induction false} ParseRequestMerges(utf8: Bytes -> bool, to: RequestValue, r: RequestValue)
    requires |RequestBytes(r)| <= INT_MAX
    ensures ParseRequest(utf8, to, RequestBytes(r)) ==
            if RequestIsUtf8(utf8, r) then Some(MergeRequest(to, r)) else None
  {
    ParseRequestBytes(r);
    if r.user.Some? {
      ApplyOne((r: RequestValue, f: Field) => RequestField(utf8, r, f), to, Field(1, Payload(UserBytes(r.user.value))));
      ParseUserMerges(utf8, if to.user.Some? then to.user.value else EMPTY_USER, r.user.value);
    }
  }

  ghost predicate ResponseIsUtf8(utf8: Bytes -> bool, r: ResponseValue) {
    r.token == [] || utf8(r.token)
  }

  ghost function IdField(v: Int64): seq<Field> {
    if v == 0 then [] else [Field(2, VarintValue(ToUnsigned(v)))]
  }

  lemma ParseIdBytes(v: Int64)
    ensures ParseFields(IdBytes(v)) == Some(IdField(v))
  {
    if v != 0 {
      ReadInt64(v);
      ParseRecord(2, 0, Varint(ToUnsigned(v)), VarintValue(ToUnsigned(v)));
    }
  }

  lemma ParseResponseBytes(r: ResponseValue)
    requires |ResponseBytes(r)| <= INT_MAX
    ensures ParseFields(ResponseBytes(r)) == Some(StringField(1, r.token) + IdField(r.userId))
  {
    ParseStringBytes(1, r.token);
    ParseIdBytes(r.userId);
    ParseConcat(StringBytes(10, r.token), IdBytes(r.userId));
  }

  lemma ApplyIdField(utf8: Bytes -> bool, to: ResponseValue, v: Int64)
    ensures Apply((r: ResponseValue, f: Field) => ResponseField(utf8, r, f), to, IdField(v)) ==
            Some(if v == 0 then to else to.(userId := v))
  {
    var step := (r: ResponseValue, f: Field) => ResponseField(utf8, r, f);
    if v != 0 { ApplyOne(step, to, Field(2, VarintValue(ToUnsigned(v)))); }
  }

  lemma {:induction false} ParseResponseMerges(utf8: Bytes -> bool, to: ResponseValue, r: ResponseValue)
    requires |ResponseBytes(r)| <= INT_MAX
    ensures ParseResponse(utf8, to, ResponseBytes(r)) ==
            if ResponseIsUtf8(utf8, r) then Some(MergeResponse(to, r)) else None
  {
    ParseResponseBytes(r);
    var step := (r: ResponseValue, f: Field) => ResponseField(utf8, r, f);
    ApplyConcat(step, to, StringField(1, r.token), IdField(r.userId));
    ApplyOne(step, to, Field(1, Payload(r.token)));
    ApplyIdField(utf8, MergeResponse(to, r.(userId := 0)), r.userId);
  }

  // ----- round trips ----------------------------------------------------------------------

  /** Parsing a serialized message gives the message back, exactly when its strings are valid;
      in particular an empty user that is present stays present. */
  lemma UserRoundTrip(utf8: Bytes -> bool, u: UserValue)
    requires |UserBytes(u)| <= INT_MAX
    ensures ParseUser(utf8, EMPTY_USER, UserBytes(u)) == Some(u) <==> UserIsUtf8(utf8, u)
  {
    ParseUserMerges(utf8, EMPTY_USER, u);
  }

  lemma RequestRoundTrip(utf8: Bytes -> bool, r: RequestValue)
    requires |RequestBytes(r)| <= INT_MAX
    ensures ParseRequest(utf8, EMPTY_REQUEST, RequestBytes(r)) == Some(r) <==> RequestIsUtf8(utf8, r)
  {
    ParseRequestMerges(utf8, EMPTY_REQUEST, r);
  }

  lemma ResponseRoundTrip(utf8: Bytes -> bool, r: ResponseValue)
    requires |ResponseBytes(r)| <= INT_MAX
    ensures ParseResponse(utf8, EMPTY_RESPONSE, ResponseBytes(r)) == Some(r) <==> ResponseIsUtf8(utf8, r)
  {
    ParseResponseMerges(utf8, EMPTY_RESPONSE, r);
  }

  // ----- merging is wire concatenation ----------------------------------------------------

  /** Parsing any accepted wire data `s` followed by a serialized message gives what merging that
      message into the parsed `s` gives. With `s` serialized this is "Last One Wins". */
  lemma {:induction false} UserConcatMerges(utf8: Bytes -> bool, s: Bytes, a: UserValue, b: UserValue)
    requires ParseUser(utf8, EMPTY_USER, s) == Some(a)
    requires |UserBytes(b)| <= INT_MAX && UserIsUtf8(utf8, b)
    ensures ParseUser(utf8, EMPTY_USER, s + UserBytes(b)) == Some(MergeUser(a, b))
  {
    ParseInParts((u: UserValue, f: Field) => UserField(utf8, u, f), EMPTY_USER, s, UserBytes(b));
    ParseUserMerges(utf8, a, b);
  }

  lemma {:induction false} RequestConcatMerges(utf8: Bytes -> bool, s: Bytes, a: RequestValue, b: RequestValue)
    requires ParseRequest(utf8, EMPTY_REQUEST, s) == Some(a)
    requires |RequestBytes(b)| <= INT_MAX && RequestIsUtf8(utf8, b)
    ensures ParseRequest(utf8, EMPTY_REQUEST, s + RequestBytes(b)) == Some(MergeRequest(a, b))
  {
    ParseInParts((r: RequestValue, f: Field) => RequestField(utf8, r, f), EMPTY_REQUEST, s, RequestBytes(b));
    ParseRequestMerges(utf8, a, b);
  }

  lemma {:induction false} ResponseConcatMerges(utf8: Bytes -> bool, s: Bytes, a: ResponseValue, b: ResponseValue)
    requires ParseResponse(utf8, EMPTY_RESPONSE, s) == Some(a)
    requires |ResponseBytes(b)| <= INT_MAX && ResponseIsUtf8(utf8, b)
    ensures ParseResponse(utf8, EMPTY_RESPONSE, s + ResponseBytes(b)) == Some(MergeResponse(a, b))
  {
    ParseInParts((r: ResponseValue, f: Field) => ResponseField(utf8, r, f), EMPTY_RESPONSE, s, ResponseBytes(b));
    ParseResponseMerges(utf8, a, b);
  }

  // ----- a length prefix from a stale cache ----------------------------------------------

  /** What LoginRequest writes for its user when the cached size of the user is `cached`. */
  function PrefixedUserBytes(u: UserValue, cached: nat): Bytes {
    [10] + (Varint(cached) + UserBytes(u))
  }

  lemma SameMiddle(x: Byte, a: Bytes, b: Bytes, rest: Bytes)
    requires [x] + (a + rest) == [x] + (b + rest)
    ensures a == b
  {
    var s, t := [x] + (a + rest), [x] + (b + rest);
    assert |s| == 1 + |a| + |rest| && |t| == 1 + |b| + |rest|;
    assert a == s[1..1 + |a|] && b == t[1..1 + |b|];
  }

  /** The bytes written are those of the message exactly when the cached size is the true size. */
  lemma {:induction false} CachedSizeMustBeExact(u: UserValue, cached: nat)
    ensures PrefixedUserBytes(u, cached) == RequestBytes(RequestValue(Some(u))) <==> cached == |UserBytes(u)|
  {
    var n, b := |UserBytes(u)|, UserBytes(u);
    if PrefixedUserBytes(u, cached) == RequestBytes(RequestValue(Some(u))) {
      SameMiddle(10, Varint(cached), Varint(n), b);
      VarintInjective(cached, n);
    }
  }
}
