/** Sign-in against the stored password records, and what a password change does to it. */
module Authentication {
  import opened Wrappers
  import opened Database
  import opened Store
  import opened Base64
  import opened Password
  import opened Meanings

  /** The credentials are those of the enabled user `id`; names are compared without regard to case. */
  predicate Accepts(db: Db, username: string, password: seq<byte>, kdf: Kdf, id: string) {
    IsUserNamed(db, username, id) && db.users[id].enabled && VerifyPassword(db.users[id].passwordHash, password, kdf)
  }

  method Authenticate(db: Db, username: string, password: seq<byte>, kdf: Kdf) returns (id: Option<string>)
    ensures id.Some? ==> Accepts(db, username, password, kdf, id.value)
    ensures id.None? && Valid(db) ==> forall i :: !Accepts(db, username, password, kdf, i)
    ensures forall i :: Accepts(db, username, password, kdf, i) <==>
                        i in db.users && SameText(db.users[i].username, username) && db.users[i].enabled &&
                        VerifyPassword(db.users[i].passwordHash, password, kdf)
  {
    forall i | i in db.users
      ensures NoCase(db.users[i].username, username) <==> SameText(db.users[i].username, username)
    {
      NoCaseMeans(db.users[i].username, username);
    }
    hide SameText, NoCase, VerifyPassword;
    if !(exists i :: i in db.users && IsUserNamed(db, username, i)) {
      return None;
    }
    var i :| i in db.users && IsUserNamed(db, username, i);
    if Valid(db) { OneUserNamed(db, username, i); }
    if !db.users[i].enabled || !VerifyPassword(db.users[i].passwordHash, password, kdf) {
      return None;
    }
    id := Some(i);
  }

  /** `other` is short enough and derives the key that `password` derives. */
  predicate SameKey(password: seq<byte>, other: seq<byte>, salt: seq<byte>, kdf: Kdf) {
    && |other| <= MAX_BYTES
    && kdf(other, salt, ITERATIONS, MEMORY, PARALLELISM, 32) == kdf(password, salt, ITERATIONS, MEMORY, PARALLELISM, 32)
  }

  /** The stored hash is all that decides, and a hash decides by the derived key. */
  lemma HashedAccepts(db: Db, id: string, password: seq<byte>, salt: seq<byte>, username: string, other: seq<byte>,
                      kdf: Kdf)
    requires KeysHaveLength(kdf) && |salt| == 16 && IsUserNamed(db, username, id)
    requires HashPassword(password, salt, kdf) == Some(db.users[id].passwordHash)
    ensures Accepts(db, username, other, kdf, id) <==> db.users[id].enabled && SameKey(password, other, salt, kdf)
  {
    VerifyHashed(password, salt, other, kdf);
  }

  /**
    After a recovery the user signs in with exactly the passwords that derive the same key as the new
    one, whatever the old hash was; sign-in of everybody else is as before.
   */
  lemma RecoveryTakesEffect(db: Db, id: string, password: seq<byte>, salt: seq<byte>, auditId: string,
                            timestamp: string,
                            username: string, other: seq<byte>, kdf: Kdf)
    requires KeysHaveLength(kdf) && |salt| == 16 && Valid(db)
    requires AfterRecover(db, Some(id), HashPassword(password, salt, kdf), auditId, timestamp).Some?
    ensures var d := AfterRecover(db, Some(id), HashPassword(password, salt, kdf), auditId, timestamp).value;
            && (IsUserNamed(db, username, id) ==>
                  (Accepts(d, username, other, kdf, id) <==> SameKey(password, other, salt, kdf)))
            && forall j :: j != id ==> Accepts(d, username, other, kdf, j) == Accepts(db, username, other, kdf, j)
  {
    hide Valid, VerifyPassword, HashPassword;
    var d := AfterRecover(db, Some(id), HashPassword(password, salt, kdf), auditId, timestamp).value;
    if IsUserNamed(db, username, id) {
      HashedAccepts(d, id, password, salt, username, other, kdf);
    }
  }
}
