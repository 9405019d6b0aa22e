/** CallHandler::handleLogin: answering one Login request with a pooled connection. */
module Login {
  import opened Wrappers
  import opened Wire
  import opened Codec
  import opened Messages
  import opened ConnectionPool
  import Pool = PoolMonitor

  type Int32 = v: int | -0x8000_0000 <= v < 0x8000_0000

  datatype StatusCode = OK | NOT_FOUND | UNAUTHENTICATED | UNAVAILABLE | INTERNAL
  datatype Status = Status(code: StatusCode, message: string)

  /** What the database makes of the query for one email; `Throws` is any std::exception between
      opening the transaction and converting the row. */
  datatype QueryResult =
    | NoRows
    | Row(id: Int32, password: Bytes)
    | Throws(what: string)

  const TOKEN_PREFIX: Bytes := [0x74, 0x6F, 0x6B, 0x65, 0x6E, 0x5F]

  function Digits(n: nat): Bytes {
    if n < 10 then [0x30 + n] else Digits(n / 10) + [0x30 + n % 10]
  }

  /** std::to_string of an integer. */
  function Decimal(v: int): Bytes {
    if v < 0 then [0x2D] + Digits(-v) else Digits(v)
  }

  function TokenFor(id: int): Bytes { TOKEN_PREFIX + Decimal(id) }

  /** What a sequence of decimal digits means, most significant digit first. */
  ghost function Numeral(s: Bytes): int {
    if s == [] then 0 else 10 * Numeral(s[..|s| - 1]) + s[|s| - 1] - 0x30
  }

  /** The digits of a number are a decimal numeral of it, without leading zeros. */
  lemma {:induction false} DigitsAreNumeral(n: nat)
    ensures Numeral(Digits(n)) == n && |Digits(n)| >= 1
    ensures forall i | 0 <= i < |Digits(n)| :: '0' as int <= Digits(n)[i] <= '9' as int
    ensures |Digits(n)| > 1 ==> Digits(n)[0] != '0' as int
  {
    if n < 10 {
      assert Digits(n)[..0] == [];
    } else {
      DigitsAreNumeral(n / 10);
      assert Digits(n)[..|Digits(n)| - 1] == Digits(n / 10);
      if |Digits(n / 10)| == 1 { assert Digits(n / 10)[..0] == []; }
    }
  }

  /** A token is the text token_ and the decimal numeral of the id, with a minus sign if it is
      negative. */
  lemma {:induction false} TokenText(id: int)
    ensures |TokenFor(id)| > 6 && forall i | 0 <= i < 6 :: TokenFor(id)[i] == "token_"[i] as int
    ensures id >= 0 ==> Numeral(TokenFor(id)[6..]) == id
    ensures id < 0 ==> TokenFor(id)[6] == '-' as int && Numeral(TokenFor(id)[7..]) == -id
  {
    var d := Digits(if id < 0 then -id else id);
    DigitsAreNumeral(if id < 0 then -id else id);
    assert id >= 0 ==> TokenFor(id)[6..] == d;
    assert id < 0 ==> TokenFor(id)[7..] == d;
  }

  lemma {:induction false} DigitsInjective(m: nat, n: nat)
    requires Digits(m) == Digits(n)
    ensures m == n
  {
    assert Digits(m)[|Digits(m)| - 1] == Digits(n)[|Digits(n)| - 1];
    DigitsNonEmpty(m / 10);
    DigitsNonEmpty(n / 10);
    if m >= 10 && n >= 10 {
      assert Digits(m / 10) == Digits(m)[..|Digits(m)| - 1] == Digits(n / 10);
      DigitsInjective(m / 10, n / 10);
    }
  }

  lemma {:induction false} DigitsNonEmpty(n: nat)
    ensures |Digits(n)| >= 1 && 0x30 <= Digits(n)[0] <= 0x39
  {
    if n >= 10 { DigitsNonEmpty(n / 10); }
  }

  /** Different users get different tokens. */
  lemma {:induction false} TokenInjective(a: int, b: int)
    requires TokenFor(a) == TokenFor(b)
    ensures a == b
  {
    assert TokenFor(a)[6..] == Decimal(a) && TokenFor(b)[6..] == Decimal(b);
    if a < 0 && b < 0 {
      assert Decimal(a)[1..] == Digits(-a) && Decimal(b)[1..] == Digits(-b);
      DigitsInjective(-a, -b);
    } else if a >= 0 && b >= 0 {
      DigitsInjective(a, b);
    } else {
      DigitsNonEmpty(if a < 0 then b else a);
      assert false;
    }
  }

  /** What `_request.user()` returns: the default instance stands in for a missing user. */
  function UserOf(request: RequestValue): UserValue {
    if request.user.Some? then request.user.value else EMPTY_USER
  }

  /** The reply to a request; `None` when the server runs without a pool. */
  function Outcome(request: RequestValue, result: Option<QueryResult>): (Status, ResponseValue) {
    match result
    case None => (Status(UNAVAILABLE, "DB not available"), EMPTY_RESPONSE)
    case Some(NoRows) => (Status(NOT_FOUND, "User not found"), EMPTY_RESPONSE)
    case Some(Throws(what)) => (Status(INTERNAL, what), EMPTY_RESPONSE)
    case Some(Row(id, password)) =>
      if UserOf(request).password != password then (Status(UNAUTHENTICATED, "Wrong password"), EMPTY_RESPONSE)
      else (Status(OK, ""), ResponseValue(TokenFor(id), id))
  }

  /** Every way out gives the connection back to the end of the queue and leaves nothing else of
      the pool changed; only a correct password fills in the response. `arrival` is the connection
      that another thread gives back if this one has to wait. */
  method HandleLogin(request: LoginRequest, response: LoginResponse, pool: PostgresConnectionPool?,
                     arrival: Option<Pool.Connection>, query: Bytes -> QueryResult) returns (status: Status)
    requires request.Valid() && response.Valid() && response.View() == EMPTY_RESPONSE
    requires pool != null && pool.pool == [] ==> arrival.Some?
    modifies response, pool
    ensures response.Valid()
    ensures pool != null ==> pool.pool == Rotate(old(Awaited(pool.pool, arrival)))
    ensures pool != null && old(pool.pool) != [] ==> pool.pool == old(pool.pool[1..] + [pool.pool[0]])
    ensures pool != null && old(pool.pool) == [] ==> pool.pool == [arrival.value]
    ensures (status, response.View()) ==
            Outcome(old(request.View()), if pool == null then None else Some(query(old(request.UserView()).email)))
    ensures pool == null <==> status == Status(UNAVAILABLE, "DB not available")
    ensures pool != null ==>
              var user := old(request.UserView());
              match query(user.email)
              case NoRows => status == Status(NOT_FOUND, "User not found")
              case Throws(what) => status == Status(INTERNAL, what)
              case Row(_, password) =>
                status == if password == user.password then Status(OK, "")
                          else Status(UNAUTHENTICATED, "Wrong password")
    ensures status.code == OK <==>
            pool != null && query(old(request.UserView()).email).Row? &&
            query(old(request.UserView()).email).password == old(request.UserView()).password
    ensures status.code == OK ==>
            var id := query(old(request.UserView()).email).id; response.View() == ResponseValue(TokenFor(id), id)
    ensures status.code != OK ==> response.View() == EMPTY_RESPONSE
  {
    if pool == null { return Status(UNAVAILABLE, "DB not available"); }
    var userData := request.UserView();
    var email, inputPass := userData.email, userData.password;

    var conn := new PooledConnection(pool, arrival);
    match query(email) {
      case Throws(what) =>
        conn.Destroy();
        return Status(INTERNAL, what);
      case NoRows =>
        conn.Destroy();
        return Status(NOT_FOUND, "User not found");
      case Row(id, password) =>
        if inputPass != password {
          conn.Destroy();
          return Status(UNAUTHENTICATED, "Wrong password");
        }
        response.SetUserId(id);
        response.SetToken(TokenFor(id));
        conn.Destroy();
        return Status(OK, "");
    }
  }
}
