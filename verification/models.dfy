/** Record shapes of the traefisy store: one `Router` row per configured
    router and the `Settings` row holding the ACME configuration. */
module Models {

  /** Absent-or-present value, used for optional constructor arguments and
      for lookups that may find nothing. */
  datatype Option<+T> = None | Some(value: T)

  /** A row of the `routers` table. `id` is the uuid string assigned at
      creation; every other column is a required string except `tls`.
      The `created_at` timestamp is not modelled. */
  datatype Router = Router(
    id: string,
    name: string,
    domain: string,
    serviceName: string,
    serviceUrl: string,
    entrypoints: string,
    tls: bool)

  /** A row of the `settings` table: the ACME account email and the
      directory holding the certificate files. */
  datatype Settings = Settings(acmeEmail: string, certDir: string)

  /** Length of the abbreviated id that the `show` command prints. */
  const ShortIdLength: nat := 8

  /** Builds a router row. `tls` is the optional constructor argument:
      when it is not supplied the column default (false) applies. */
  function NewRouter(
    id: string, name: string, domain: string, serviceName: string,
    serviceUrl: string, entrypoints: string, tls: Option<bool>): (r: Router)
    ensures r.id == id && r.name == name && r.domain == domain
    ensures r.serviceName == serviceName && r.serviceUrl == serviceUrl
    ensures r.entrypoints == entrypoints
    ensures tls == None ==> !r.tls
    ensures tls.Some? ==> r.tls == tls.value
  {
    var flag := match tls
      case Some(b) => b
      case None => false;
    Router(id, name, domain, serviceName, serviceUrl, entrypoints, flag)
  }

  /** The abbreviated id shown in the router table: Python's `id[:8]`,
      which keeps the whole string when it is shorter than eight. */
  function ShortId(id: string): (s: string)
    ensures s <= id
    ensures |s| == if |id| < ShortIdLength then |id| else ShortIdLength
  {
    if |id| <= ShortIdLength then id else id[..ShortIdLength]
  }
}
