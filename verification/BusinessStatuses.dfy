/** The status of a broker business, shared by onboarding and by the affiliation rules. */
module BusinessStatuses {
  datatype BusinessStatus =
    | Draft | Submitted | InVerification | Verified | BusinessActive
    | Incomplete | AttentionRequired | Breach | Suspended | Ceased
}
