/** The generated message classes: fields, has-bits and the cached size, changed in place. Every
    mutator of a message keeps the has-bit invariant `Valid` of that message. What can break it is
    a write through something a mutator handed out earlier: the user object of a request after the
    request has dropped the user, or the string of a field after the field was cleared. The
    methods on kept objects and strings say exactly when such a write does. */
module Messages {
  import opened Wrappers
  import opened Wire
  import opened Codec

  /** The has-bits of a message, as the set of the bit indexes that are on. */
  type HasBits = set<nat>

  const FIRST: nat := 0
  const SECOND: nat := 1

  predicate BatchCheckHasBit(bits: HasBits) { FIRST in bits || SECOND in bits }

  /** A string field: the shared immutable empty default, or a string of its own. */
  datatype StringPtr = Default | Owned(value: Bytes) {
    function Get(): Bytes { if Default? then [] else value }

    predicate IsDefault() { Default? }

    function ClearToEmpty(): StringPtr { if Default? then Default else Owned([]) }

    /** May be called only on a string that is not the shared default. */
    function ClearNonDefaultToEmpty(): StringPtr
      requires Owned?
    {
      Owned([])
    }

    /** The bit of a string field is clear only for empty content, set only for an own string. */
    ghost predicate Agrees(hasBit: bool) { if hasBit then Owned? else Get() == [] }
  }

  class User {
    var hasBits: HasBits
    var cachedSize: nat
    var password: StringPtr
    var email: StringPtr

    ghost predicate Valid()
      reads this
    {
      && password.Agrees(FIRST in hasBits)
      && email.Agrees(SECOND in hasBits)
    }

    function View(): UserValue
      reads this
    {
      UserValue(password.Get(), email.Get())
    }

    constructor ()
      ensures Valid() && View() == EMPTY_USER && hasBits == {} && cachedSize == 0
    {
      hasBits, cachedSize, password, email := {}, 0, Default, Default;
    }

    /** The copy constructor. */
    constructor Copy(from: User)
      requires from.Valid()
      ensures Valid() && View() == from.View() && hasBits == from.hasBits && cachedSize == 0
    {
      hasBits, cachedSize := from.hasBits, 0;
      password := from.password;
      email := from.email;
    }

    method SetPassword(value: Bytes)
      requires Valid()
      modifies this`hasBits, this`password
      ensures Valid() && View() == old(View()).(password := value) && hasBits == old(hasBits) + {FIRST}
    {
      hasBits := hasBits + {FIRST};
      password := Owned(value);
    }

    /** mutable_password, together with the content the caller writes through the pointer. */
    method MutablePassword(write: Bytes -> Bytes)
      requires Valid()
      modifies this`hasBits, this`password
      ensures Valid() && hasBits == old(hasBits) + {FIRST}
      ensures View() == old(View()).(password := write(old(View()).password))
    {
      hasBits := hasBits + {FIRST};
      if password.IsDefault() { password := Owned([]); }
      password := Owned(write(password.Get()));
    }

    /** A write through a pointer that mutable_password handed out while the field has owned this string. */
    method WriteKeptPassword(value: Bytes)
      requires Valid() && password.Owned?
      modifies this`password
      ensures View() == old(View()).(password := value) && hasBits == old(hasBits)
      ensures Valid() <==> FIRST in hasBits || value == []
    {
      password := Owned(value);
    }

    /** The field is emptied in place: its string, and a pointer to it, stay good. */
    method ClearPassword()
      requires Valid()
      modifies this`hasBits, this`password
      ensures Valid() && View() == old(View()).(password := []) && hasBits == old(hasBits) - {FIRST}
      ensures old(password.Owned?) ==> password.Owned?
    {
      password := password.ClearToEmpty();
      hasBits := hasBits - {FIRST};
    }

    /** The caller gets the string, if there was one, and the field is empty afterwards. */
    method ReleasePassword() returns (released: Option<Bytes>)
      requires Valid()
      modifies this`hasBits, this`password
      ensures Valid() && View() == old(View()).(password := []) && hasBits == old(hasBits) - {FIRST}
      ensures released == if FIRST in old(hasBits) then Some(old(View()).password) else None
    {
      if FIRST !in hasBits { return None; }
      hasBits := hasBits - {FIRST};
      released := Some(password.Get());
      password := Default;
    }

    method SetAllocatedPassword(value: Option<Bytes>)
      requires Valid()
      modifies this`hasBits, this`password
      ensures Valid() && View() == old(View()).(password := if value.Some? then value.value else [])
      ensures hasBits == if value.Some? then old(hasBits) + {FIRST} else old(hasBits) - {FIRST}
    {
      if value.Some? {
        hasBits := hasBits + {FIRST};
      } else {
        hasBits := hasBits - {FIRST};
      }
      password := if value.Some? then Owned(value.value) else Default;
    }

    method SetEmail(value: Bytes)
      requires Valid()
      modifies this`hasBits, this`email
      ensures Valid() && View() == old(View()).(email := value) && hasBits == old(hasBits) + {SECOND}
    {
      hasBits := hasBits + {SECOND};
      email := Owned(value);
    }

    method MutableEmail(write: Bytes -> Bytes)
      requires Valid()
      modifies this`hasBits, this`email
      ensures Valid() && hasBits == old(hasBits) + {SECOND}
      ensures View() == old(View()).(email := write(old(View()).email))
    {
      hasBits := hasBits + {SECOND};
      if email.IsDefault() { email := Owned([]); }
      email := Owned(write(email.Get()));
    }

    /** A write through a pointer that mutable_email handed out while the field has owned this string. */
    method WriteKeptEmail(value: Bytes)
      requires Valid() && email.Owned?
      modifies this`email
      ensures View() == old(View()).(email := value) && hasBits == old(hasBits)
      ensures Valid() <==> SECOND in hasBits || value == []
    {
      email := Owned(value);
    }

    /** The field is emptied in place: its string, and a pointer to it, stay good. */
    method ClearEmail()
      requires Valid()
      modifies this`hasBits, this`email
      ensures Valid() && View() == old(View()).(email := []) && hasBits == old(hasBits) - {SECOND}
      ensures old(email.Owned?) ==> email.Owned?
    {
      email := email.ClearToEmpty();
      hasBits := hasBits - {SECOND};
    }

    method ReleaseEmail() returns (released: Option<Bytes>)
      requires Valid()
      modifies this`hasBits, this`email
      ensures Valid() && View() == old(View()).(email := []) && hasBits == old(hasBits) - {SECOND}
      ensures released == if SECOND in old(hasBits) then Some(old(View()).email) else None
    {
      if SECOND !in hasBits { return None; }
      hasBits := hasBits - {SECOND};
      released := Some(email.Get());
      email := Default;
    }

    method SetAllocatedEmail(value: Option<Bytes>)
      requires Valid()
      modifies this`hasBits, this`email
      ensures Valid() && View() == old(View()).(email := if value.Some? then value.value else [])
      ensures hasBits == if value.Some? then old(hasBits) + {SECOND} else old(hasBits) - {SECOND}
    {
      if value.Some? {
        hasBits := hasBits + {SECOND};
      } else {
        hasBits := hasBits - {SECOND};
      }
      email := if value.Some? then Owned(value.value) else Default;
    }

    /** What holds whatever is done with strings handed out: a set bit means an own string. */
    ghost predicate Backed()
      reads this
    {
      (FIRST in hasBits ==> password.Owned?) && (SECOND in hasBits ==> email.Owned?)
    }

    /** Only flagged strings are reset, and that is enough where the has-bit invariant holds; the
        shared default is never written. */
    method Clear()
      requires Backed()
      modifies this`hasBits, this`password, this`email
      ensures hasBits == {} && (Valid() <==> old(Valid())) && (old(Valid()) ==> View() == EMPTY_USER)
      ensures View() == UserValue(if FIRST in old(hasBits) then [] else old(View()).password,
                                  if SECOND in old(hasBits) then [] else old(View()).email)
    {
      if BatchCheckHasBit(hasBits) {
        if FIRST in hasBits { password := password.ClearNonDefaultToEmpty(); }
        if SECOND in hasBits { email := email.ClearNonDefaultToEmpty(); }
      }
      hasBits := {};
    }

    method MergeFrom(from: User)
      requires Valid() && from.Valid() && from != this
      modifies this`hasBits, this`password, this`email
      ensures Valid() && View() == MergeUser(old(View()), from.View()) && hasBits == old(hasBits) + from.hasBits
    {
      var bits := from.hasBits;
      if BatchCheckHasBit(bits) {
        if FIRST in bits {
          if from.password.Get() != [] {
            password := Owned(from.password.Get());
          } else if password.IsDefault() {
            password := Owned([]);
          }
        }
        if SECOND in bits {
          if from.email.Get() != [] {
            email := Owned(from.email.Get());
          } else if email.IsDefault() {
            email := Owned([]);
          }
        }
      }
      hasBits := hasBits + bits;
    }

    method CopyFrom(from: User)
      requires Valid() && from.Valid()
      modifies this`hasBits, this`password, this`email
      ensures Valid() && View() == old(from.View()) && hasBits == old(from.hasBits)
    {
      if from == this { return; }
      Clear();
      MergeFrom(from);
    }

    /** The two messages trade contents; the cached sizes stay where they are. */
    method InternalSwap(other: User)
      requires Valid() && other.Valid()
      modifies this`hasBits, this`password, this`email, other`hasBits, other`password, other`email
      ensures Valid() && other.Valid()
      ensures View() == old(other.View()) && other.View() == old(View())
      ensures hasBits == old(other.hasBits) && other.hasBits == old(hasBits)
    {
      hasBits, other.hasBits := other.hasBits, hasBits;
      password, other.password := other.password, password;
      email, other.email := other.email, email;
    }

    /** Appends to the output at `target`. */
    method InternalSerialize(target: Bytes) returns (out: Bytes)
      requires Valid()
      ensures out == target + UserBytes(View())
    {
      out := target;
      if FIRST in hasBits {
        if password.Get() != [] { out := WriteString(10, password.Get(), out); }
      }
      assert out == target + StringBytes(10, password.Get());
      ghost var before := out;
      if SECOND in hasBits {
        if email.Get() != [] { out := WriteString(18, email.Get(), out); }
      }
      assert out == before + StringBytes(18, email.Get());
      AppendAssociative(target, StringBytes(10, password.Get()), StringBytes(18, email.Get()));
    }

    method ByteSizeLong() returns (total: nat)
      requires Valid()
      modifies this`cachedSize
      ensures total == |UserBytes(View())| && cachedSize == total
    {
      total := 0;
      if BatchCheckHasBit(hasBits) {
        if FIRST in hasBits {
          if password.Get() != [] { total := total + 1 + StringSize(password.Get()); }
        }
        if SECOND in hasBits {
          if email.Get() != [] { total := total + 1 + StringSize(email.Get()); }
        }
      }
      VarintSizeIsLength(|password.Get()|);
      VarintSizeIsLength(|email.Get()|);
      cachedSize := total;
    }
  }

  function StringSize(s: Bytes): nat { VarintSize(|s|) + |s| }

  lemma AppendAssociative(s: Bytes, t: Bytes, u: Bytes)
    ensures (s + t) + u == s + (t + u)
  {
  }

  lemma AppendThree(s: Bytes, t: Bytes, u: Bytes, v: Bytes)
    ensures ((s + t) + u) + v == s + (t + (u + v))
  {
  }

  method WriteString(tag: Byte, s: Bytes, target: Bytes) returns (out: Bytes)
    ensures s != [] ==> out == target + StringBytes(tag, s)
  {
    out := target + [tag];
    out := out + Varint(|s|);
    out := out + s;
    AppendThree(target, [tag], Varint(|s|), s);
  }

  class LoginRequest {
    var hasBits: HasBits
    var cachedSize: nat
    var user: User?

    /** What holds whatever is done with the user object: a set bit means there is one. */
    ghost predicate Linked()
      reads this, user
    {
      (user != null ==> user.Valid()) && (HasUser() ==> user != null)
    }

    /** Moreover, under a clear bit the object, if it is still there, is the default message. */
    ghost predicate Valid()
      reads this, user
    {
      Linked() && (!HasUser() && user != null ==> user.View() == EMPTY_USER && user.hasBits == {})
    }

    predicate HasUser()
      reads this
    {
      FIRST in hasBits
    }

    ghost function View(): RequestValue
      reads this, user
    {
      RequestValue(if HasUser() && user != null then Some(user.View()) else None)
    }

    /** The user() accessor: the default instance stands in for a missing object. */
    function UserView(): (u: UserValue)
      requires Linked()
      reads this, user
      ensures HasUser() ==> u == View().user.value
      ensures Valid() && !HasUser() ==> u == EMPTY_USER
    {
      if user != null then user.View() else EMPTY_USER
    }

    constructor ()
      ensures Valid() && View() == EMPTY_REQUEST && hasBits == {} && user == null && cachedSize == 0
    {
      hasBits, cachedSize, user := {}, 0, null;
    }

    constructor Copy(from: LoginRequest)
      requires from.Linked()
      ensures Valid() && View() == from.View() && hasBits == from.hasBits && cachedSize == 0
      ensures user != null ==> fresh(user)
    {
      hasBits, cachedSize := from.hasBits, 0;
      if FIRST in from.hasBits {
        var copy := new User.Copy(from.user);
        user := copy;
      } else {
        user := null;
      }
    }

    /** The object stays allocated and keeps being owned, but it is emptied. */
    method ClearUser()
      requires Linked()
      modifies this`hasBits, user
      ensures Valid() && View() == EMPTY_REQUEST && hasBits == old(hasBits) - {FIRST} && user == old(user)
    {
      if user != null { user.Clear(); }
      hasBits := hasBits - {FIRST};
    }

    /** The user afterwards is present; its content is what user() was. */
    method MutableUser() returns (u: User)
      requires Linked()
      modifies this`hasBits, this`user
      ensures Valid() && u == user && (old(user) != null ==> u == old(user)) && (old(user) == null ==> fresh(u))
      ensures View() == RequestValue(Some(old(UserView()))) && hasBits == old(hasBits) + {FIRST}
    {
      hasBits := hasBits + {FIRST};
      if user == null { user := new User(); }
      u := user;
    }

    method ReleaseUser() returns (released: User?)
      requires Linked()
      modifies this`hasBits, this`user
      ensures Valid() && View() == EMPTY_REQUEST && user == null && hasBits == old(hasBits) - {FIRST}
      ensures released == old(user)
      ensures released != null ==> released.Valid() && released.View() == old(UserView())
      ensures old(HasUser()) ==> released != null
    {
      hasBits := hasBits - {FIRST};
      released := user;
      user := null;
    }

    /** The previous object is deleted, so it must not be the new one. */
    method SetAllocatedUser(value: User?)
      requires Linked() && (value != null ==> value.Valid() && value != user)
      modifies this`hasBits, this`user
      ensures Valid() && user == value
      ensures View() == RequestValue(if value == null then None else Some(value.View()))
      ensures hasBits == if value != null then old(hasBits) + {FIRST} else old(hasBits) - {FIRST}
    {
      if value != null {
        hasBits := hasBits + {FIRST};
      } else {
        hasBits := hasBits - {FIRST};
      }
      user := value;
    }

    /** Only a flagged user is reset; the message is the default one afterwards, user() included,
        exactly if user() was the default where its bit was clear. */
    method Clear()
      requires Linked()
      modifies this`hasBits, user
      ensures Linked() && View() == EMPTY_REQUEST && hasBits == {} && user == old(user)
      ensures UserView() == if old(HasUser()) then EMPTY_USER else old(UserView())
      ensures Valid() <==> old(Valid())
    {
      if FIRST in hasBits { user.Clear(); }
      hasBits := {};
    }

    method MergeFrom(from: LoginRequest)
      requires Linked() && from.Linked() && from != this && (user != null ==> user != from.user)
      modifies this`hasBits, this`user, user
      ensures Linked() && hasBits == old(hasBits) + from.hasBits
      ensures old(Valid()) ==> View() == MergeRequest(old(View()), old(from.View()))
      ensures View() ==
              if from.HasUser() then RequestValue(Some(MergeUser(old(UserView()), old(from.UserView()))))
              else old(View())
      ensures Valid() <==> from.HasUser() || old(Valid())
      ensures user == old(user) || fresh(user)
      ensures from.Linked() && from.View() == old(from.View())
    {
      var bits := from.hasBits;
      if FIRST in bits {
        if user == null {
          user := new User.Copy(from.user);
        } else {
          user.MergeFrom(from.user);
        }
      }
      hasBits := hasBits + bits;
    }

    method CopyFrom(from: LoginRequest)
      requires Linked() && from.Linked() && (from != this && user != null ==> user != from.user)
      modifies this`hasBits, this`user, user
      ensures Linked() && (old(Valid()) ==> Valid() && View() == old(from.View()))
      ensures from != this && from.HasUser() ==>
                View() == RequestValue(Some(MergeUser(if old(HasUser()) then EMPTY_USER else old(UserView()),
                                                      old(from.UserView()))))
      ensures from == this || !from.HasUser() ==> View() == old(from.View())
    {
      if from == this { return; }
      Clear();
      MergeFrom(from);
    }

    method InternalSwap(other: LoginRequest)
      requires Linked() && other.Linked()
      modifies this`hasBits, this`user, other`hasBits, other`user
      ensures Linked() && other.Linked()
      ensures (Valid() <==> old(other.Valid())) && (other.Valid() <==> old(Valid()))
      ensures View() == old(other.View()) && other.View() == old(View())
      ensures user == old(other.user) && other.user == old(user)
    {
      hasBits, other.hasBits := other.hasBits, hasBits;
      user, other.user := other.user, user;
    }

    /** The length prefix of the user is whatever its cached size says. */
    method InternalSerialize(target: Bytes) returns (out: Bytes)
      requires Linked()
      ensures out == target + if HasUser() then PrefixedUserBytes(user.View(), user.cachedSize) else []
    {
      out := target;
      if FIRST in hasBits {
        out := out + [10];
        out := out + Varint(user.cachedSize);
        out := user.InternalSerialize(out);
        AppendThree(target, [10], Varint(user.cachedSize), UserBytes(user.View()));
      }
    }

    method ByteSizeLong() returns (total: nat)
      requires Linked()
      modifies this`cachedSize, (if user == null then {} else {user})`cachedSize
      ensures total == |RequestBytes(View())| && cachedSize == total
      ensures HasUser() ==> user.cachedSize == |UserBytes(user.View())|
      ensures Linked() && (Valid() <==> old(Valid())) && View() == old(View())
    {
      total := 0;
      if FIRST in hasBits {
        var size := user.ByteSizeLong();
        VarintSizeIsLength(size);
        total := total + 1 + VarintSize(size) + size;
      }
      cachedSize := total;
    }

    /** Sizing and then serializing, as every caller in the runtime does. */
    method Serialize() returns (out: Bytes)
      requires Linked()
      modifies this`cachedSize, (if user == null then {} else {user})`cachedSize
      ensures Linked() && (Valid() <==> old(Valid())) && View() == old(View())
      ensures out == RequestBytes(View()) && |out| == cachedSize
    {
      var total := ByteSizeLong();
      out := InternalSerialize([]);
      SerializedBytes(View(), if HasUser() then user.cachedSize else 0);
    }

    // ----- writes through a user object kept from earlier -----------------------------------

    /** Whatever mutators have done to the object: the request is as it should be exactly if it
        still has its user, or there is no object, or the object has no bit set. */
    lemma KeptUserLaw()
      requires Linked()
      ensures Valid() <==> HasUser() || user == null || user.hasBits == {}
    {
    }

    /** set_password on the object that mutable_user handed out some time ago. */
    method SetKeptPassword(value: Bytes)
      requires Linked() && user != null
      modifies user
      ensures Linked() && UserView() == old(UserView()).(password := value)
      ensures Valid() <==> HasUser()
    {
      user.SetPassword(value);
    }

    method SetKeptEmail(value: Bytes)
      requires Linked() && user != null
      modifies user
      ensures Linked() && UserView() == old(UserView()).(email := value)
      ensures Valid() <==> HasUser()
    {
      user.SetEmail(value);
    }

    /** mutable_password on the object, with what the caller writes through the pointer at once. */
    method MutableKeptPassword(write: Bytes -> Bytes)
      requires Linked() && user != null
      modifies user
      ensures Linked() && UserView() == old(UserView()).(password := write(old(UserView()).password))
      ensures Valid() <==> HasUser()
    {
      user.MutablePassword(write);
    }

    method MutableKeptEmail(write: Bytes -> Bytes)
      requires Linked() && user != null
      modifies user
      ensures Linked() && UserView() == old(UserView()).(email := write(old(UserView()).email))
      ensures Valid() <==> HasUser()
    {
      user.MutableEmail(write);
    }

    method SetAllocatedKeptPassword(value: Option<Bytes>)
      requires Linked() && user != null
      modifies user
      ensures Linked() && UserView() == old(UserView()).(password := if value.Some? then value.value else [])
      ensures Valid() <==> HasUser() || (value.None? && old(user.hasBits) <= {FIRST})
    {
      user.SetAllocatedPassword(value);
    }

    method SetAllocatedKeptEmail(value: Option<Bytes>)
      requires Linked() && user != null
      modifies user
      ensures Linked() && UserView() == old(UserView()).(email := if value.Some? then value.value else [])
      ensures Valid() <==> HasUser() || (value.None? && old(user.hasBits) <= {SECOND})
    {
      user.SetAllocatedEmail(value);
    }

    method CopyIntoKept(from: User)
      requires Linked() && user != null && from != user && from.Valid()
      modifies user
      ensures Linked() && UserView() == old(from.View())
      ensures Valid() <==> HasUser() || from.hasBits == {}
    {
      user.CopyFrom(from);
    }

    method SwapKept(other: User)
      requires Linked() && user != null && other != user && other.Valid()
      modifies user, other
      ensures Linked() && other.Valid() && UserView() == old(other.View()) && other.View() == old(UserView())
      ensures Valid() <==> HasUser() || old(other.hasBits) == {}
    {
      user.InternalSwap(other);
    }

    method MergeIntoKept(from: User)
      requires Linked() && user != null && from != user && from.Valid()
      modifies user
      ensures Linked() && UserView() == MergeUser(old(UserView()), old(from.View()))
      ensures Valid() <==> HasUser() || (old(Valid()) && from.hasBits == {})
    {
      user.MergeFrom(from);
    }
  }

  lemma SerializedBytes(r: RequestValue, cached: nat)
    requires r.user.Some? ==> cached == |UserBytes(r.user.value)|
    ensures [] + (if r.user.Some? then PrefixedUserBytes(r.user.value, cached) else []) == RequestBytes(r)
  {
  }

  /** A request that has no user and has been cleared, and whose user() still shows a password. */
  method KeptUserOutlivesClear() returns (r: LoginRequest)
    ensures fresh(r) && r.Linked() && !r.Valid()
    ensures !r.HasUser() && r.View() == EMPTY_REQUEST && r.UserView() == UserValue([66], [])
  {
    r := new LoginRequest();
    var u := r.MutableUser();
    u.SetPassword([65]);
    r.ClearUser();
    u.SetPassword([66]);
    assert r.user == u && r.UserView() == UserValue([66], []);
    r.Clear();
  }

  /** A user whose password was cleared, and that has been cleared as a whole, and still shows one. */
  method KeptStringOutlivesClear() returns (u: User)
    ensures fresh(u) && u.hasBits == {} && !u.Valid() && u.View() == UserValue([66], [])
  {
    u := new User();
    u.MutablePassword(_ => [65]);
    u.ClearPassword();
    u.WriteKeptPassword([66]);
    u.Clear();
  }

  class LoginResponse {
    var hasBits: HasBits
    var cachedSize: nat
    var token: StringPtr
    var userId: Int64

    ghost predicate Valid()
      reads this
    {
      && token.Agrees(FIRST in hasBits)
      && (SECOND !in hasBits ==> userId == 0)
    }

    function View(): ResponseValue
      reads this
    {
      ResponseValue(token.Get(), userId)
    }

    constructor ()
      ensures Valid() && View() == EMPTY_RESPONSE && hasBits == {} && cachedSize == 0
    {
      hasBits, cachedSize, token, userId := {}, 0, Default, 0;
    }

    constructor Copy(from: LoginResponse)
      requires from.Valid()
      ensures Valid() && View() == from.View() && hasBits == from.hasBits && cachedSize == 0
    {
      hasBits, cachedSize := from.hasBits, 0;
      token := from.token;
      userId := from.userId;
    }

    method SetToken(value: Bytes)
      requires Valid()
      modifies this`hasBits, this`token
      ensures Valid() && View() == old(View()).(token := value) && hasBits == old(hasBits) + {FIRST}
    {
      hasBits := hasBits + {FIRST};
      token := Owned(value);
    }

    method MutableToken(write: Bytes -> Bytes)
      requires Valid()
      modifies this`hasBits, this`token
      ensures Valid() && hasBits == old(hasBits) + {FIRST}
      ensures View() == old(View()).(token := write(old(View()).token))
    {
      hasBits := hasBits + {FIRST};
      if token.IsDefault() { token := Owned([]); }
      token := Owned(write(token.Get()));
    }

    /** A write through a pointer that mutable_token handed out while the field has owned this string. */
    method WriteKeptToken(value: Bytes)
      requires Valid() && token.Owned?
      modifies this`token
      ensures View() == old(View()).(token := value) && hasBits == old(hasBits)
      ensures Valid() <==> FIRST in hasBits || value == []
    {
      token := Owned(value);
    }

    /** The field is emptied in place: its string, and a pointer to it, stay good. */
    method ClearToken()
      requires Valid()
      modifies this`hasBits, this`token
      ensures Valid() && View() == old(View()).(token := []) && hasBits == old(hasBits) - {FIRST}
      ensures old(token.Owned?) ==> token.Owned?
    {
      token := token.ClearToEmpty();
      hasBits := hasBits - {FIRST};
    }

    method ReleaseToken() returns (released: Option<Bytes>)
      requires Valid()
      modifies this`hasBits, this`token
      ensures Valid() && View() == old(View()).(token := []) && hasBits == old(hasBits) - {FIRST}
      ensures released == if FIRST in old(hasBits) then Some(old(View()).token) else None
    {
      if FIRST !in hasBits { return None; }
      hasBits := hasBits - {FIRST};
      released := Some(token.Get());
      token := Default;
    }

    method SetAllocatedToken(value: Option<Bytes>)
      requires Valid()
      modifies this`hasBits, this`token
      ensures Valid() && View() == old(View()).(token := if value.Some? then value.value else [])
      ensures hasBits == if value.Some? then old(hasBits) + {FIRST} else old(hasBits) - {FIRST}
    {
      if value.Some? {
        hasBits := hasBits + {FIRST};
      } else {
        hasBits := hasBits - {FIRST};
      }
      token := if value.Some? then Owned(value.value) else Default;
    }

    method SetUserId(value: Int64)
      requires Valid()
      modifies this`hasBits, this`userId
      ensures Valid() && View() == old(View()).(userId := value) && hasBits == old(hasBits) + {SECOND}
    {
      userId := value;
      hasBits := hasBits + {SECOND};
    }

    method ClearUserId()
      requires Valid()
      modifies this`hasBits, this`userId
      ensures Valid() && View() == old(View()).(userId := 0) && hasBits == old(hasBits) - {SECOND}
    {
      userId := 0;
      hasBits := hasBits - {SECOND};
    }

    /** Resets a flagged token and the id; the default message where the has-bit invariant holds. */
    method Clear()
      requires FIRST in hasBits ==> token.Owned?
      modifies this`hasBits, this`token, this`userId
      ensures hasBits == {} && (old(Valid()) ==> Valid() && View() == EMPTY_RESPONSE)
      ensures View() == ResponseValue(if FIRST in old(hasBits) then [] else old(View()).token, 0)
    {
      if FIRST in hasBits { token := token.ClearNonDefaultToEmpty(); }
      userId := 0;
      hasBits := {};
    }

    method MergeFrom(from: LoginResponse)
      requires Valid() && from.Valid() && from != this
      modifies this`hasBits, this`token, this`userId
      ensures Valid() && View() == MergeResponse(old(View()), from.View()) && hasBits == old(hasBits) + from.hasBits
    {
      var bits := from.hasBits;
      if BatchCheckHasBit(bits) {
        if FIRST in bits {
          if from.token.Get() != [] {
            token := Owned(from.token.Get());
          } else if token.IsDefault() {
            token := Owned([]);
          }
        }
        if SECOND in bits {
          if from.userId != 0 { userId := from.userId; }
        }
      }
      hasBits := hasBits + bits;
    }

    method CopyFrom(from: LoginResponse)
      requires Valid() && from.Valid()
      modifies this`hasBits, this`token, this`userId
      ensures Valid() && View() == old(from.View()) && hasBits == old(from.hasBits)
    {
      if from == this { return; }
      Clear();
      MergeFrom(from);
    }

    method InternalSwap(other: LoginResponse)
      requires Valid() && other.Valid()
      modifies this`hasBits, this`token, this`userId, other`hasBits, other`token, other`userId
      ensures Valid() && other.Valid()
      ensures View() == old(other.View()) && other.View() == old(View())
      ensures hasBits == old(other.hasBits) && other.hasBits == old(hasBits)
    {
      hasBits, other.hasBits := other.hasBits, hasBits;
      token, other.token := other.token, token;
      userId, other.userId := other.userId, userId;
    }

    method InternalSerialize(target: Bytes) returns (out: Bytes)
      requires Valid()
      ensures out == target + ResponseBytes(View())
    {
      out := target;
      if FIRST in hasBits {
        if token.Get() != [] { out := WriteString(10, token.Get(), out); }
      }
      assert out == target + StringBytes(10, token.Get());
      ghost var before := out;
      if SECOND in hasBits {
        if userId != 0 {
          out := out + [16];
          out := out + Varint(ToUnsigned(userId));
          AppendAssociative(before, [16], Varint(ToUnsigned(userId)));
        }
      }
      assert out == before + IdBytes(userId);
      AppendAssociative(target, StringBytes(10, token.Get()), IdBytes(userId));
    }

    method ByteSizeLong() returns (total: nat)
      requires Valid()
      modifies this`cachedSize
      ensures total == |ResponseBytes(View())| && cachedSize == total
    {
      total := 0;
      if BatchCheckHasBit(hasBits) {
        if FIRST in hasBits {
          if token.Get() != [] { total := total + 1 + StringSize(token.Get()); }
        }
        if SECOND in hasBits {
          if userId != 0 { total := total + 1 + VarintSize(ToUnsigned(userId)); }
        }
      }
      VarintSizeIsLength(|token.Get()|);
      VarintSizeIsLength(ToUnsigned(userId));
      cachedSize := total;
    }
  }
}
