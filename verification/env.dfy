/**
 The environment guardrails: which deployment the process runs in, and
 whether it may write content.
 */
module Env {
  import opened Wrappers

  /** The three environment variables consulted: NODE_ENV, CODESPACES and
      NEXT_PUBLIC_CMS_MODE (None when unset). */
  datatype Env = Env(nodeEnv: Option<string>, codespaces: Option<string>, cmsMode: Option<string>)

  predicate IsProduction(e: Env) {
    e.nodeEnv == Some("production")
  }

  predicate IsCodespaces(e: Env) {
    e.codespaces == Some("true")
  }

  predicate CmsForced(e: Env) {
    e.cmsMode == Some("true")
  }

  /** `isLocal()`: neither a production build nor a Codespace. */
  function IsLocal(e: Env): (r: bool)
    ensures r ==> !IsProduction(e)
    ensures r <==> !IsProduction(e) && !IsCodespaces(e)
  {
    e.nodeEnv != Some("production") && !IsCodespaces(e)
  }

  /** `isCMS()`: the forced mode, a Codespace and any non-production build are
      writable; a production build is read-only unless forced. */
  function IsCMS(e: Env): (r: bool)
    ensures CmsForced(e) || IsCodespaces(e) || !IsProduction(e) ==> r
    ensures !r <==> IsProduction(e) && !IsCodespaces(e) && !CmsForced(e)
  {
    if e.cmsMode == Some("true") then true
    else if IsCodespaces(e) then true
    else if !IsProduction(e) then true
    else false
  }

  /** `canWrite()`. */
  function CanWrite(e: Env): bool {
    IsCMS(e)
  }

  /** Writing is allowed exactly where the CMS runs, and a read-only site is
      a production build with neither override. */
  lemma WritableExactlyInCMS(e: Env)
    ensures CanWrite(e) <==> IsCMS(e)
    ensures !CanWrite(e) <==> IsProduction(e) && !IsCodespaces(e) && !CmsForced(e)
  {
  }

  /** A local build is always a CMS. */
  lemma LocalIsCMS(e: Env)
    ensures IsLocal(e) ==> IsCMS(e) && CanWrite(e)
  {
  }

  const CodespacesName := "CMS (Codespaces)"
  const LocalName := "CMS (Local)"
  const ProductionName := "Production (Read-Only)"

  /** `getEnvironmentName()`. The three cases before the 'Unknown' fallback
      cover every environment, so the fallback is never reached. */
  function EnvironmentName(e: Env): (r: string)
    ensures r != "Unknown"
    ensures r in {CodespacesName, LocalName, ProductionName}
    ensures r == CodespacesName <==> IsCodespaces(e)
    ensures r == LocalName <==> IsLocal(e)
    ensures r == ProductionName <==> IsProduction(e) && !IsCodespaces(e)
  {
    if IsCodespaces(e) then CodespacesName
    else if IsLocal(e) then LocalName
    else if IsProduction(e) then ProductionName
    else assert false; "Unknown"
  }

  /** `getEnvironmentColor()`. */
  function EnvironmentColor(e: Env): (r: string)
    ensures r == "green" <==> IsCMS(e)
    ensures r == "purple" <==> !CanWrite(e)
  {
    if IsCMS(e) then "green" else "purple"
  }

  /** The label follows the deployment, not the permission: a production
      build with the CMS mode forced is writable yet named read-only. */
  lemma ForcedProductionIsLabelledReadOnly()
    ensures var e := Env(Some("production"), None, Some("true"));
      CanWrite(e) && EnvironmentName(e) == ProductionName && EnvironmentColor(e) == "green"
  {
  }
}
