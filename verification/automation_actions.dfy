/** The actions of a rule, and which of them the rules API accepts. */
module AutomationActions {
  import opened Options
  import AccessText

  /** An action: `webhook` matters to a notification, `network` to a platform pause. */
  datatype Deed = Deed(kind: string, webhook: string, network: string)

  const NOTIFY := "notify"
  const PAUSE_CAMPAIGN := "pause_campaign"
  const BLACKLIST_PLACEMENT := "blacklist_placement"
  const PLATFORM_PAUSE := "platform_pause"

  /** The four action types the rules API accepts. */
  const ACTION_TYPES := {NOTIFY, PAUSE_CAMPAIGN, BLACKLIST_PLACEMENT, PLATFORM_PAUSE}

  const BY_PLACEMENT := "placement_id"

  datatype Refusal = WebhookMissing | NotPerPlacement | NetworkMissing | Unsupported

  predicate IsTrue(refusal: Refusal, deed: Deed, groupBy: string) {
    match refusal
    case WebhookMissing => deed.kind == NOTIFY && !("http" <= AccessText.Trim(deed.webhook))
    case NotPerPlacement => deed.kind == BLACKLIST_PLACEMENT && groupBy != BY_PLACEMENT
    case NetworkMissing => deed.kind == PLATFORM_PAUSE && AccessText.Trim(deed.network) == ""
    case Unsupported => deed.kind !in ACTION_TYPES
  }

  /** A notification has somewhere to go, a blacklisting has a placement, a platform pause a network. */
  predicate Permitted(deed: Deed, groupBy: string) {
    || (deed.kind == "notify" && "http" <= AccessText.Trim(deed.webhook))
    || deed.kind == "pause_campaign"
    || (deed.kind == "blacklist_placement" && groupBy == "placement_id")
    || (deed.kind == "platform_pause" && AccessText.Trim(deed.network) != "")
  }

  /** Nothing speaks against exactly the permitted actions. */
  lemma PermittedIff(deed: Deed, groupBy: string)
    ensures Permitted(deed, groupBy) <==> forall refusal :: !IsTrue(refusal, deed, groupBy)
  {
    if !Permitted(deed, groupBy) {
      assert IsTrue(WebhookMissing, deed, groupBy) || IsTrue(NotPerPlacement, deed, groupBy)
          || IsTrue(NetworkMissing, deed, groupBy) || IsTrue(Unsupported, deed, groupBy);
    }
  }

  /** Accepts exactly the lists in which nothing is wrong with any action by itself, and otherwise says
      what is wrong with the first that is. */
  method ValidateActions(actions: seq<Deed>, groupBy: string) returns (refusal: Option<Refusal>)
    ensures refusal.None? <==> forall k :: 0 <= k < |actions| ==> Permitted(actions[k], groupBy)
    ensures refusal.Some? ==>
              exists k :: 0 <= k < |actions| && IsTrue(refusal.value, actions[k], groupBy)
                && forall j :: 0 <= j < k ==> Permitted(actions[j], groupBy)
  {
    for k := 0 to |actions|
      invariant forall j :: 0 <= j < k ==> Permitted(actions[j], groupBy)
    {
      var deed := actions[k];
      refusal := None;
      if deed.kind == NOTIFY {
        if !("http" <= AccessText.Trim(deed.webhook)) {
          refusal := Some(WebhookMissing);
        }
      } else if deed.kind in {PAUSE_CAMPAIGN, BLACKLIST_PLACEMENT, PLATFORM_PAUSE} {
        if deed.kind == BLACKLIST_PLACEMENT && groupBy != BY_PLACEMENT {
          refusal := Some(NotPerPlacement);
        } else if deed.kind == PLATFORM_PAUSE && AccessText.Trim(deed.network) == "" {
          refusal := Some(NetworkMissing);
        }
      } else {
        refusal := Some(Unsupported);
      }
      PermittedIff(deed, groupBy);
      if refusal.Some? {
        assert IsTrue(refusal.value, deed, groupBy);
        return;
      }
    }
    return None;
  }
}
