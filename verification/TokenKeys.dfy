/** Requests for tokens and the keys under which the cache holds them. The token manager relies on one
    property of its key function, which the printed key has. */
module TokenKeys {
  import opened Tokens

  datatype Request = Request(name: string, namespace: string, spec: RequestSpec)

  predicate SameTokenRequest(a: Request, b: Request) {
    a.name == b.name && a.namespace == b.namespace && SameRequest(a.spec, b.spec)
  }

  // Equal keys exactly for requests that differ in nothing that is printed.
  ghost predicate Distinguishes(f: Request -> string) {
    forall a, b :: f(a) == f(b) <==> SameTokenRequest(a, b)
  }

  type KeyFunction = f: Request -> string | Distinguishes(f) ghost witness PrintedKeys(_ => true)

  // The printed key, for some choice of the printable characters.
  function PrintedKeys(p: Printable): (f: Request -> string)
    ensures Distinguishes(f)
    ensures forall q :: f(q) == KeyFunc(p, q.name, q.namespace, q.spec)
  {
    PrintedKeysDistinguish(p);
    (q: Request) => KeyFunc(p, q.name, q.namespace, q.spec)
  }

  lemma PrintedKeysDistinguish(p: Printable)
    ensures Distinguishes((q: Request) => KeyFunc(p, q.name, q.namespace, q.spec))
  {
    var f := (q: Request) => KeyFunc(p, q.name, q.namespace, q.spec);
    forall a, b ensures f(a) == f(b) <==> SameTokenRequest(a, b) {
      KeyFuncInjective(p, a.name, a.namespace, a.spec, b.name, b.namespace, b.spec);
    }
  }
}
