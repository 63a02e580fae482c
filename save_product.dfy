/**
 * The product-saving endpoint: it initialises the Firebase Admin SDK from
 * three environment variables, repairing the newlines of the private key,
 * and writes the posted product to the `productos` collection under its
 * SKU. The SDK and the database are outside the model: the handler returns
 * the write it issues, and the write's outcome is an input.
 */
module SaveProduct {
  import opened Wrappers
  import opened JsString
  import Cors

  const Backslash := '\\'
  /** The two characters `\n`, as an escaped newline appears in an environment variable. */
  const EscapedNewline := "\\n"
  /** The three characters `\\n`, an escaped newline escaped once more. */
  const DoubleEscapedNewline := "\\\\n"
  const Collection := "productos"

  /** `.replace(/\\n/g, '\n').replace(/\\\\n/g, '\n')`, in the order the source applies them. */
  function CleanPrivateKeyAsWritten(raw: string): string {
    ReplaceAll(ReplaceAll(raw, EscapedNewline, "\n"), DoubleEscapedNewline, "\n")
  }

  /** The repair with the longer pattern first, so that both escapings are undone. */
  function CleanPrivateKey(raw: string): string {
    ReplaceAll(ReplaceAll(raw, DoubleEscapedNewline, "\n"), EscapedNewline, "\n")
  }

  /** A text with its newlines written as `\n`. */
  function EscapeOnce(t: string): string {
    if t == [] then [] else (if t[0] == '\n' then EscapedNewline else [t[0]]) + EscapeOnce(t[1..])
  }

  /** A text with every newline written as `\\n`. */
  function EscapeTwiceAll(t: string): string {
    if t == [] then [] else (if t[0] == '\n' then DoubleEscapedNewline else [t[0]]) + EscapeTwiceAll(t[1..])
  }

  /** Where the pattern does not start, one character is kept and the scan moves on. */
  lemma ReplaceNoMatchHere(s: string, p: string, r: string)
    requires p != [] && s != []
    requires !StartsWith(s, p)
    ensures ReplaceAll(s, p, r) == [s[0]] + ReplaceAll(s[1..], p, r)
  {
    if |s| < |p| {
      ReplaceShort(s[1..], p, r);
    }
  }

  lemma ReplaceShort(s: string, p: string, r: string)
    requires p != [] && |s| < |p|
    ensures ReplaceAll(s, p, r) == s
  {
  }

  lemma ReplaceMatchHere(p: string, rest: string, r: string)
    requires p != []
    ensures ReplaceAll(p + rest, p, r) == r + ReplaceAll(rest, p, r)
  {
    var s := p + rest;
    assert s[..|p|] == p && s[|p|..] == rest;
  }

  /** A character that cannot begin the pattern is kept. */
  lemma ReplaceKeepsHead(c: char, rest: string, p: string, r: string)
    requires p != [] && c != p[0]
    ensures ReplaceAll([c] + rest, p, r) == [c] + ReplaceAll(rest, p, r)
  {
    var s := [c] + rest;
    assert s[1..] == rest;
    if |p| <= |s| {
      assert s[..|p|][0] == c;
    }
    ReplaceNoMatchHere(s, p, r);
  }

  /** A text without backslashes is left alone by either replacement. */
  lemma {:induction false} NoBackslashUnchanged(t: string, p: string)
    requires p != [] && p[0] == Backslash && Backslash !in t
    ensures ReplaceAll(t, p, "\n") == t
  {
    if t != [] {
      assert t == [t[0]] + t[1..];
      ReplaceKeepsHead(t[0], t[1..], p, "\n");
      NoBackslashUnchanged(t[1..], p);
    }
  }

  /** The corrected repair undoes single escaping of a text that has no backslashes. */
  lemma {:induction false} CleanUndoesEscapeOnce(t: string)
    requires Backslash !in t
    ensures CleanPrivateKey(EscapeOnce(t)) == t
  {
    DoubleEscapeAbsent(t);
    SingleUnescape(t);
  }

  /** Single escaping never produces two backslashes in a row. */
  lemma {:induction false} DoubleEscapeAbsent(t: string)
    requires Backslash !in t
    ensures ReplaceAll(EscapeOnce(t), DoubleEscapedNewline, "\n") == EscapeOnce(t)
  {
    if t != [] {
      var rest := EscapeOnce(t[1..]);
      assert Backslash !in t[1..] by { assert forall c | c in t[1..] :: c in t; }
      DoubleEscapeAbsent(t[1..]);
      if t[0] == '\n' {
        var s := EscapedNewline + rest;
        assert !StartsWith(s, DoubleEscapedNewline) by { assert |s| >= 3 ==> s[1] == 'n'; }
        ReplaceNoMatchHere(s, DoubleEscapedNewline, "\n");
        assert s[1..] == ['n'] + rest;
        ReplaceKeepsHead('n', rest, DoubleEscapedNewline, "\n");
      } else {
        assert t[0] in t;
        ReplaceKeepsHead(t[0], rest, DoubleEscapedNewline, "\n");
      }
    }
  }

  lemma {:induction false} SingleUnescape(t: string)
    requires Backslash !in t
    ensures ReplaceAll(EscapeOnce(t), EscapedNewline, "\n") == t
  {
    if t != [] {
      var rest := EscapeOnce(t[1..]);
      assert Backslash !in t[1..] by { assert forall c | c in t[1..] :: c in t; }
      SingleUnescape(t[1..]);
      if t[0] == '\n' {
        ReplaceMatchHere(EscapedNewline, rest, "\n");
      } else {
        assert t[0] in t;
        ReplaceKeepsHead(t[0], rest, EscapedNewline, "\n");
      }
      assert t == [t[0]] + t[1..];
    }
  }

  /** The corrected repair also undoes double escaping of a text without backslashes. */
  lemma {:induction false} CleanUndoesEscapeTwice(t: string)
    requires Backslash !in t
    ensures CleanPrivateKey(EscapeTwiceAll(t)) == t
  {
    DoubleUnescape(t);
    NoBackslashUnchanged(t, EscapedNewline);
  }

  lemma {:induction false} DoubleUnescape(t: string)
    requires Backslash !in t
    ensures ReplaceAll(EscapeTwiceAll(t), DoubleEscapedNewline, "\n") == t
  {
    if t != [] {
      var rest := EscapeTwiceAll(t[1..]);
      assert Backslash !in t[1..] by { assert forall c | c in t[1..] :: c in t; }
      DoubleUnescape(t[1..]);
      if t[0] == '\n' {
        ReplaceMatchHere(DoubleEscapedNewline, rest, "\n");
      } else {
        assert t[0] in t;
        ReplaceKeepsHead(t[0], rest, DoubleEscapedNewline, "\n");
      }
      assert t == [t[0]] + t[1..];
    }
  }

  /** As written, a double-escaped newline leaves a stray backslash in the key. */
  lemma AsWrittenKeepsBackslash()
    ensures CleanPrivateKeyAsWritten(EscapeTwiceAll("\n")) == [Backslash, '\n']
    ensures CleanPrivateKey(EscapeTwiceAll("\n")) == "\n"
  {
    CleanUndoesEscapeTwice("\n");
    var s := EscapeTwiceAll("\n");
    assert s == DoubleEscapedNewline;
    assert s[..2][1] == Backslash;
    ReplaceNoMatchHere(s, EscapedNewline, "\n");
    assert s[1..] == EscapedNewline + [];
    ReplaceMatchHere(EscapedNewline, [], "\n");
    var once := [Backslash, '\n'];
    ReplaceShort(once, DoubleEscapedNewline, "\n");
  }

  /** No backslash of `x` is followed by an `n`. */
  predicate NoEscapedNewline(x: string) {
    forall i | 0 <= i < |x| - 1 :: !(x[i] == Backslash && x[i + 1] == 'n')
  }

  /** Replacing `\n` changes the first character only when it is a backslash. */
  lemma UnescapeFirstChar(s: string)
    requires s != []
    ensures var r := ReplaceAll(s, EscapedNewline, "\n");
      r != [] && (r[0] == 'n' <==> s[0] == 'n')
  {
  }

  /** After the first replacement no `\n` is left. */
  lemma {:induction false} FirstPassLeavesNone(s: string)
    ensures NoEscapedNewline(ReplaceAll(s, EscapedNewline, "\n"))
    decreases |s|
  {
    var r := ReplaceAll(s, EscapedNewline, "\n");
    if |s| >= 2 {
      if s[..2] == EscapedNewline {
        FirstPassLeavesNone(s[2..]);
        assert r == "\n" + ReplaceAll(s[2..], EscapedNewline, "\n");
      } else {
        var rest := ReplaceAll(s[1..], EscapedNewline, "\n");
        FirstPassLeavesNone(s[1..]);
        UnescapeFirstChar(s[1..]);
        assert r == [s[0]] + rest;
        assert s[0] == Backslash ==> s[1] != 'n' by { assert s[..2][0] == s[0] && s[..2][1] == s[1]; }
        forall i | 0 <= i < |r| - 1
          ensures !(r[i] == Backslash && r[i + 1] == 'n')
        {
          if i > 0 { assert r[i] == rest[i - 1] && r[i + 1] == rest[i]; }
        }
      }
    }
  }

  lemma NoDoubleEscapedNewline(x: string)
    requires NoEscapedNewline(x)
    ensures !Contains(x, DoubleEscapedNewline)
  {
    forall i | 0 <= i <= |x|
      ensures !OccursAt(x, DoubleEscapedNewline, i)
    {
      if i + 3 <= |x| {
        var j := i + 1;
        assert !(x[j] == Backslash && x[j + 1] == 'n');
        assert x[i..i + 3][1] == x[j] && x[i..i + 3][2] == x[j + 1];
        assert |DoubleEscapedNewline| == 3 && DoubleEscapedNewline[1] == Backslash && DoubleEscapedNewline[2] == 'n';
      }
    }
  }

  /** So the second replacement of the source never applies: only `\n` is repaired. */
  lemma AsWrittenSecondPassInert(raw: string)
    ensures CleanPrivateKeyAsWritten(raw) == ReplaceAll(raw, EscapedNewline, "\n")
  {
    var r := ReplaceAll(raw, EscapedNewline, "\n");
    FirstPassLeavesNone(raw);
    NoDoubleEscapedNewline(r);
    ReplaceAllAbsent(r, DoubleEscapedNewline, "\n");
  }

  /** `FIREBASE_PRIVATE_KEY`, `FIREBASE_CLIENT_EMAIL` and `FIREBASE_PROJECT_ID`. */
  datatype FirebaseEnv = FirebaseEnv(privateKey: Option<string>, clientEmail: Option<string>, projectId: Option<string>)

  /** The service-account credential handed to `admin.credential.cert`. */
  datatype Credential = Credential(projectId: string, clientEmail: string, privateKey: string)

  /** A key without any `\n` passes the source's repair unchanged. */
  lemma NoEscapeUnchanged(raw: string)
    requires NoEscapedNewline(raw)
    ensures CleanPrivateKeyAsWritten(raw) == raw
  {
    forall i | 0 <= i <= |raw|
      ensures !OccursAt(raw, EscapedNewline, i)
    {
      if i + 2 <= |raw| {
        assert raw[i..i + 2][0] == raw[i] && raw[i..i + 2][1] == raw[i + 1];
      }
    }
    ReplaceAllAbsent(raw, EscapedNewline, "\n");
    NoDoubleEscapedNewline(raw);
    ReplaceAllAbsent(raw, DoubleEscapedNewline, "\n");
  }

  /**
   * The credential the source hands to `admin.credential.cert`: `None` when
   * it throws first, for a missing variable.
   */
  function CertArgument(env: FirebaseEnv): (r: Option<Credential>)
    ensures r.None? <==> !Truthy(env.privateKey) || !Truthy(env.clientEmail) || !Truthy(env.projectId)
    ensures r.Some? ==> r.value.projectId == env.projectId.value && r.value.clientEmail == env.clientEmail.value
    ensures r.Some? ==> r.value.privateKey == ReplaceAll(env.privateKey.value, EscapedNewline, "\n")
  {
    if !Truthy(env.privateKey) || !Truthy(env.clientEmail) || !Truthy(env.projectId) then None
    else
      AsWrittenSecondPassInert(env.privateKey.value);
      Some(Credential(env.projectId.value, env.clientEmail.value, CleanPrivateKeyAsWritten(env.privateKey.value)))
  }

  /** The credential with the corrected repair of the key. */
  function CertArgumentCorrected(env: FirebaseEnv): (r: Option<Credential>)
    ensures r.None? <==> CertArgument(env).None?
    ensures r.Some? ==> r.value.projectId == CertArgument(env).value.projectId
    ensures r.Some? ==> r.value.clientEmail == CertArgument(env).value.clientEmail
    ensures r.Some? ==> r.value.privateKey == CleanPrivateKey(env.privateKey.value)
  {
    if !Truthy(env.privateKey) || !Truthy(env.clientEmail) || !Truthy(env.projectId) then None
    else Some(Credential(env.projectId.value, env.clientEmail.value, CleanPrivateKey(env.privateKey.value)))
  }

  /**
   * The module's initialisation. `accepts` is the SDK's verdict on a
   * credential (`cert` and `initializeApp` return rather than throw); the
   * `catch` rethrows every error, so the result is `None` when a variable
   * is missing or the SDK rejects the credential.
   */
  function InitFirebase(env: FirebaseEnv, accepts: Credential -> bool): (r: Option<Credential>)
    ensures r.None? <==> CertArgument(env).None? || !accepts(CertArgument(env).value)
    ensures r.Some? ==> r == CertArgument(env)
  {
    match CertArgument(env)
    case None => None
    case Some(c) => if accepts(c) then Some(c) else None
  }

  /** A key stored with its newlines escaped once reaches the SDK with real newlines. */
  lemma InitRestoresKey(env: FirebaseEnv, key: string)
    requires Truthy(env.clientEmail) && Truthy(env.projectId) && Backslash !in key
    requires env.privateKey == Some(EscapeOnce(key))
    requires key != ""
    ensures CertArgument(env).Some? && CertArgument(env).value.privateKey == key
  {
    SingleUnescape(key);
    assert key == [key[0]] + key[1..];
  }

  /** A key whose newlines were escaped twice reaches the SDK with a backslash before each newline. */
  lemma InitKeepsBackslash(env: FirebaseEnv)
    requires Truthy(env.clientEmail) && Truthy(env.projectId)
    requires env.privateKey == Some(EscapeTwiceAll("\n"))
    ensures CertArgument(env).Some? && CertArgument(env).value.privateKey == [Backslash, '\n']
  {
    AsWrittenKeepsBackslash();
    assert EscapeTwiceAll("\n") == DoubleEscapedNewline;
  }

  /** When the SDK accepts the multi-line key, a key stored escaped once initialises the module with it. */
  lemma InitLoadsEscapedKey(env: FirebaseEnv, accepts: Credential -> bool, key: string)
    requires Truthy(env.clientEmail) && Truthy(env.projectId) && Backslash !in key && key != ""
    requires env.privateKey == Some(EscapeOnce(key))
    requires accepts(Credential(env.projectId.value, env.clientEmail.value, key))
    ensures InitFirebase(env, accepts) == Some(Credential(env.projectId.value, env.clientEmail.value, key))
  {
    InitRestoresKey(env, key);
  }

  /**
   * When the SDK rejects a key holding the stray backslash, a key stored
   * escaped twice stops the module from loading, so no handler exists.
   */
  lemma DoubleEscapedKeyFailsToLoad(method_: string, originHeader: Option<string>, codespaces: Option<string>,
                                    env: FirebaseEnv, accepts: Credential -> bool, body: Option<Product>, writeSucceeds: bool)
    requires Truthy(env.clientEmail) && Truthy(env.projectId)
    requires env.privateKey == Some(EscapeTwiceAll("\n"))
    requires !accepts(Credential(env.projectId.value, env.clientEmail.value, [Backslash, '\n']))
    ensures InitFirebase(env, accepts).None?
    ensures Handle(method_, originHeader, codespaces, env, accepts, body, writeSucceeds).None?
  {
    InitKeepsBackslash(env);
  }

  /** With the corrected repair, a key escaped once or twice reaches the SDK with real newlines. */
  lemma InitCorrectedRestoresKey(env: FirebaseEnv, key: string)
    requires Truthy(env.clientEmail) && Truthy(env.projectId) && Backslash !in key
    requires env.privateKey == Some(EscapeOnce(key)) || env.privateKey == Some(EscapeTwiceAll(key))
    requires key != ""
    ensures CertArgumentCorrected(env).Some? && CertArgumentCorrected(env).value.privateKey == key
  {
    if env.privateKey == Some(EscapeOnce(key)) {
      CleanUndoesEscapeOnce(key);
    } else {
      CleanUndoesEscapeTwice(key);
    }
    assert key == [key[0]] + key[1..];
  }

  /** The posted JSON: its `productSku` and the rest of its fields. */
  datatype Product = Product(productSku: Option<string>, fields: map<string, string>)

  /** `db.collection(collection).doc(document).set(data, { merge })` */
  datatype FirestoreWrite = FirestoreWrite(collection: string, document: string, data: Product, merge: bool)

  datatype SaveBody = NoContent | Failure(error: string) | Saved(message: string)

  datatype SaveReply = SaveReply(status: int, headers: map<string, string>, body: SaveBody, write: Option<FirestoreWrite>)

  const InvalidProductMessage := "Datos de producto inválidos o falta productSku."

  function SavedMessage(sku: string): string {
    "Producto " + sku + " guardado/actualizado exitosamente en Firestore."
  }

  /**
   * The handler; `None` when the module failed to initialise, so that no
   * request reaches it. `accepts` is the SDK's verdict on the credential. `body` is `req.body` (`None` when absent) and
   * `writeSucceeds` the database's answer to the write.
   */
  function Handle(method_: string, originHeader: Option<string>, codespaces: Option<string>,
                  env: FirebaseEnv, accepts: Credential -> bool, body: Option<Product>, writeSucceeds: bool): (r: Option<SaveReply>)
    ensures r.None? <==> CertArgument(env).None? || !accepts(CertArgument(env).value)
    ensures r.Some? ==> r.value.headers == Cors.CorsHeaders(Cors.RequestOrigin(originHeader), Cors.AllowedOrigins(codespaces))
    ensures r.Some? && method_ == "OPTIONS" ==> r.value.status == 204 && r.value.write.None?
    ensures r.Some? && method_ != "OPTIONS" && !(body.Some? && Truthy(body.value.productSku)) ==>
      r.value.status == 400 && r.value.body == Failure(InvalidProductMessage) && r.value.write.None?
    // The product is merged into the document named by its SKU, and success is reported only if that write succeeded.
    ensures r.Some? && r.value.write.Some? <==>
      r.Some? && method_ != "OPTIONS" && body.Some? && Truthy(body.value.productSku)
    ensures r.Some? && r.value.write.Some? ==>
      r.value.write.value == FirestoreWrite(Collection, body.value.productSku.value, body.value, true)
    ensures r.Some? && r.value.write.Some? && writeSucceeds ==>
      r.value.status == 200 && r.value.body == Saved(SavedMessage(body.value.productSku.value))
    ensures r.Some? && r.value.write.Some? && !writeSucceeds ==>
      r.value.status == 500 && r.value.body == Failure("Error interno al guardar en la base de datos.")
  {
    if InitFirebase(env, accepts).None? then None
    else
      var headers := Cors.CorsHeaders(Cors.RequestOrigin(originHeader), Cors.AllowedOrigins(codespaces));
      if method_ == "OPTIONS" then Some(SaveReply(204, headers, NoContent, None))
      else if body.None? || !Truthy(body.value.productSku) then
        Some(SaveReply(400, headers, Failure(InvalidProductMessage), None))
      else
        var sku := body.value.productSku.value;
        var write := FirestoreWrite(Collection, sku, body.value, true);
        if writeSucceeds then Some(SaveReply(200, headers, Saved(SavedMessage(sku)), Some(write)))
        else Some(SaveReply(500, headers, Failure("Error interno al guardar en la base de datos."), Some(write)))
  }

  /** The handler does not look at the method beyond OPTIONS: a GET with a product body writes it too. */
  lemma AnyMethodWrites(originHeader: Option<string>, codespaces: Option<string>, env: FirebaseEnv,
                        accepts: Credential -> bool, p: Product)
    requires InitFirebase(env, accepts).Some? && Truthy(p.productSku)
    ensures Handle("GET", originHeader, codespaces, env, accepts, Some(p), true).value.write
         == Some(FirestoreWrite(Collection, p.productSku.value, p, true))
  {
  }
}
