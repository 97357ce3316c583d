/** The required documents, checked against the current versions of the evidence table. */
module Documents {
  import opened Common
  import opened Temporal

  datatype SubjectType = ProfileType | BusinessType

  /** When a catalogue entry is required: always, of brokers stating less than two years, or never. */
  datatype Need = Always | UnderTwoYears | NeverNeeded

  datatype Entry = Entry(documentType: string, subjectType: SubjectType, need: Need)

  const CATALOG: seq<Entry> := [
    Entry("certificate_iv", ProfileType, Always),
    Entry("police_check", ProfileType, Always),
    Entry("mentoring_letter", ProfileType, UnderTwoYears),
    Entry("pi_certificate", BusinessType, Always),
    Entry("diploma", ProfileType, NeverNeeded),
    Entry("credit_licence_certificate", ProfileType, Always),
    Entry("credit_licence_certificate", BusinessType, Always),
    Entry("financial_services_licence", BusinessType, NeverNeeded),
    Entry("resume", ProfileType, Always),
    Entry("right_to_work", ProfileType, NeverNeeded),
    Entry("signed_declaration", ProfileType, Always)]

  /** A current document as the query returns it. */
  datatype Document = Document(documentType: string, expiry: Option<Time>)

  datatype Reason = NotUploaded | Expired

  datatype Item = Item(documentType: string, reason: Reason)

  predicate Required(e: Entry, experience: Option<real>) {
    match e.need
    case Always => true
    case UnderTwoYears => experience.Some? && experience.value < 2.0
    case NeverNeeded => false
  }

  /** The map built from the rows keeps the last document of a type. */
  function ByType(docs: seq<Document>): map<string, Document> {
    if docs == [] then map[]
    else ByType(docs[..|docs| - 1])[docs[|docs| - 1].documentType := docs[|docs| - 1]]
  }

  predicate HasExpired(d: Document, now: Time) {
    d.expiry.Some? && d.expiry.value < now
  }

  function ItemsFor(e: Entry, subjectType: SubjectType, byType: map<string, Document>, experience: Option<real>, now: Time): seq<Item> {
    if e.subjectType != subjectType || !Required(e, experience) then []
    else if e.documentType !in byType then [Item(e.documentType, NotUploaded)]
    else if HasExpired(byType[e.documentType], now) then [Item(e.documentType, Expired)]
    else []
  }

  function Outstanding(catalog: seq<Entry>, subjectType: SubjectType, byType: map<string, Document>, experience: Option<real>, now: Time): seq<Item> {
    if catalog == [] then []
    else
      Outstanding(catalog[..|catalog| - 1], subjectType, byType, experience, now)
      + ItemsFor(catalog[|catalog| - 1], subjectType, byType, experience, now)
  }

  /** Walks the catalogue, skipping what is not required and pushing what is missing or expired. */
  method ComputeDocumentOutstandingItems(catalog: seq<Entry>, subjectType: SubjectType, docs: seq<Document>, experience: Option<real>, now: Time)
    returns (items: seq<Item>)
    ensures items == Outstanding(catalog, subjectType, ByType(docs), experience, now)
  {
    var byType: map<string, Document> := map[];
    for i := 0 to |docs|
      invariant byType == ByType(docs[..i])
    {
      assert docs[..i + 1][..i] == docs[..i];
      byType := byType[docs[i].documentType := docs[i]];
    }
    assert docs[..|docs|] == docs;
    items := [];
    for i := 0 to |catalog|
      invariant items == Outstanding(catalog[..i], subjectType, byType, experience, now)
    {
      assert catalog[..i + 1][..i] == catalog[..i];
      var e := catalog[i];
      if e.subjectType != subjectType || !Required(e, experience) {
        continue;
      }
      if e.documentType !in byType {
        items := items + [Item(e.documentType, NotUploaded)];
        continue;
      }
      if HasExpired(byType[e.documentType], now) {
        items := items + [Item(e.documentType, Expired)];
      }
    }
    assert catalog[..|catalog|] == catalog;
  }

  method GetOutstandingDocumentItems(subjectType: SubjectType, docs: seq<Document>, experience: Option<real>, now: Time)
    returns (items: seq<Item>)
    ensures items == Outstanding(CATALOG, subjectType, ByType(docs), if subjectType == ProfileType then experience else None, now)
  {
    var stated := if subjectType == ProfileType then experience else None;
    items := ComputeDocumentOutstandingItems(CATALOG, subjectType, docs, stated, now);
  }

  // ---------------------------------------------------------------- against the evidence table

  /** A row the query selects: a current, typed version of the subject. */
  predicate IsCurrent(v: Version<Option<Time>>, subject: Subject, documentType: string) {
    v.subject == subject && v.kind == Some(documentType) && v.validTo == None
  }

  /** The query's result, in whatever order it came: one document for each current typed version. */
  ghost predicate ReadOf(docs: seq<Document>, rows: seq<Version<Option<Time>>>, subject: Subject) {
    && (forall k | 0 <= k < |docs| ::
          exists i | 0 <= i < |rows| :: IsCurrent(rows[i], subject, docs[k].documentType) && rows[i].payload == docs[k].expiry)
    && (forall i | 0 <= i < |rows| && rows[i].subject == subject && rows[i].kind.Some? && rows[i].validTo.None? ::
          Document(rows[i].kind.value, rows[i].payload) in docs)
  }

  lemma {:induction false} ByTypeKeepsADocument(docs: seq<Document>, t: string)
    ensures t in ByType(docs) ==> ByType(docs)[t] in docs && ByType(docs)[t].documentType == t
    ensures (exists k | 0 <= k < |docs| :: docs[k].documentType == t) ==> t in ByType(docs)
  {
    if docs != [] {
      var n := |docs| - 1;
      ByTypeKeepsADocument(docs[..n], t);
      if k :| 0 <= k < |docs| && docs[k].documentType == t {
        assert k < n ==> docs[..n][k].documentType == t;
      }
    }
  }

  /** The map holds, for each type, exactly the current version on file: the order of the rows does not matter. */
  lemma ByTypeIsCurrent(w: Writes<Option<Time>>, subject: Subject, docs: seq<Document>, t: string)
    requires ReadOf(docs, Rows(w), subject)
    ensures t in ByType(docs) <==> exists i | 0 <= i < |Rows(w)| :: IsCurrent(Rows(w)[i], subject, t)
    ensures forall i | 0 <= i < |Rows(w)| && IsCurrent(Rows(w)[i], subject, t) ::
              t in ByType(docs) && ByType(docs)[t] == Document(t, Rows(w)[i].payload)
  {
    ByTypeKeepsADocument(docs, t);
    if t in ByType(docs) {
      var k :| 0 <= k < |docs| && docs[k] == ByType(docs)[t];
      var j :| 0 <= j < |Rows(w)| && IsCurrent(Rows(w)[j], subject, docs[k].documentType) && Rows(w)[j].payload == docs[k].expiry;
      forall i | 0 <= i < |Rows(w)| && IsCurrent(Rows(w)[i], subject, t)
        ensures ByType(docs)[t] == Document(t, Rows(w)[i].payload)
      {
        OneCurrent(w, i, j, subject, t);
      }
    }
    forall i | 0 <= i < |Rows(w)| && IsCurrent(Rows(w)[i], subject, t) ensures t in ByType(docs) {
      assert Document(t, Rows(w)[i].payload) in docs;
    }
  }

  lemma {:induction false} OutstandingMembers(catalog: seq<Entry>, subjectType: SubjectType, byType: map<string, Document>, experience: Option<real>, now: Time, item: Item)
    ensures item in Outstanding(catalog, subjectType, byType, experience, now)
       <==> exists e | e in catalog :: item in ItemsFor(e, subjectType, byType, experience, now)
  {
    if catalog != [] {
      var n := |catalog| - 1;
      OutstandingMembers(catalog[..n], subjectType, byType, experience, now, item);
      assert forall e :: e in catalog <==> e in catalog[..n] || e == catalog[n];
    }
  }

  /** The catalogue asks this type of document of this subject. */
  predicate Asked(catalog: seq<Entry>, subjectType: SubjectType, experience: Option<real>, t: string) {
    exists k | 0 <= k < |catalog| ::
      catalog[k].documentType == t && catalog[k].subjectType == subjectType && Required(catalog[k], experience)
  }

  /**
   * Whatever was uploaded and superseded before: a document is reported as not uploaded exactly
   * when it is asked for and has no current version, and as expired exactly when its current
   * version is.
   */
  lemma ReportsExactlyWhatIsMissing(catalog: seq<Entry>, subjectType: SubjectType, w: Writes<Option<Time>>, subject: Subject, docs: seq<Document>,
                                    experience: Option<real>, now: Time, t: string)
    requires ReadOf(docs, Rows(w), subject)
    ensures var items := Outstanding(catalog, subjectType, ByType(docs), experience, now);
            && (Item(t, NotUploaded) in items
                <==> Asked(catalog, subjectType, experience, t) && !exists i | 0 <= i < |Rows(w)| :: IsCurrent(Rows(w)[i], subject, t))
            && (Item(t, Expired) in items
                <==> Asked(catalog, subjectType, experience, t)
                     && exists i | 0 <= i < |Rows(w)| ::
                          IsCurrent(Rows(w)[i], subject, t) && Rows(w)[i].payload.Some? && Rows(w)[i].payload.value < now)
  {
    var byType := ByType(docs);
    ByTypeIsCurrent(w, subject, docs, t);
    ItemsOfType(catalog, subjectType, byType, experience, now, t, NotUploaded);
    ItemsOfType(catalog, subjectType, byType, experience, now, t, Expired);
    ByTypeKeepsADocument(docs, t);
  }

  lemma ItemsOfType(catalog: seq<Entry>, subjectType: SubjectType, byType: map<string, Document>, experience: Option<real>, now: Time, t: string, reason: Reason)
    ensures Item(t, reason) in Outstanding(catalog, subjectType, byType, experience, now)
       <==> && Asked(catalog, subjectType, experience, t)
            && if t in byType then reason == Expired && HasExpired(byType[t], now) else reason == NotUploaded
  {
    var item := Item(t, reason);
    OutstandingMembers(catalog, subjectType, byType, experience, now, item);
    if e :| e in catalog && item in ItemsFor(e, subjectType, byType, experience, now) {
      var k :| 0 <= k < |catalog| && catalog[k] == e;
    }
    if Asked(catalog, subjectType, experience, t) {
      var k :| 0 <= k < |catalog| && catalog[k].documentType == t && catalog[k].subjectType == subjectType && Required(catalog[k], experience);
      assert catalog[k] in catalog;
    }
  }

  /** The documents asked of a broker: five of everyone, and a mentoring letter of those stating less than two years. */
  predicate AskedOfBroker(experience: Option<real>, t: string) {
    || t == "certificate_iv" || t == "police_check" || t == "credit_licence_certificate" || t == "resume" || t == "signed_declaration"
    || (t == "mentoring_letter" && experience.Some? && experience.value < 2.0)
  }

  predicate AskedOfBusiness(t: string) {
    t == "pi_certificate" || t == "credit_licence_certificate"
  }

  predicate AskedOf(subjectType: SubjectType, experience: Option<real>, t: string) {
    if subjectType == ProfileType then AskedOfBroker(experience, t) else AskedOfBusiness(t)
  }

  lemma EntryAsks(experience: Option<real>, k: nat)
    requires k < |CATALOG| && Required(CATALOG[k], experience)
    ensures AskedOf(CATALOG[k].subjectType, experience, CATALOG[k].documentType)
  {
    if k == 0 {
    } else if k == 1 {
    } else if k == 2 {
    } else if k == 3 {
    } else if k == 5 {
    } else if k == 6 {
    } else if k == 8 {
    } else {
    }
  }

  /** The entry that asks for a document. */
  function EntryFor(subjectType: SubjectType, t: string): nat {
    if subjectType == BusinessType then if t == "pi_certificate" then 3 else 6
    else if t == "certificate_iv" then 0
    else if t == "police_check" then 1
    else if t == "mentoring_letter" then 2
    else if t == "credit_licence_certificate" then 5
    else if t == "resume" then 8
    else 10
  }

  lemma AskedHasEntry(subjectType: SubjectType, experience: Option<real>, t: string)
    requires AskedOf(subjectType, experience, t)
    ensures var k := EntryFor(subjectType, t);
            k < |CATALOG| && CATALOG[k].subjectType == subjectType && CATALOG[k].documentType == t && Required(CATALOG[k], experience)
  {
    var k := EntryFor(subjectType, t);
    if k == 0 {
    } else if k == 1 {
    } else if k == 2 {
    } else if k == 3 {
    } else if k == 5 {
    } else if k == 6 {
    } else if k == 8 {
    } else {
    }
  }

  /** The catalogue asks exactly these of exactly these subjects. */
  lemma CatalogueAsks(subjectType: SubjectType, experience: Option<real>, t: string)
    ensures Asked(CATALOG, subjectType, experience, t) <==> AskedOf(subjectType, experience, t)
  {
    if Asked(CATALOG, subjectType, experience, t) {
      var k :| 0 <= k < |CATALOG| && CATALOG[k].documentType == t && CATALOG[k].subjectType == subjectType && Required(CATALOG[k], experience);
      EntryAsks(experience, k);
    }
    if AskedOf(subjectType, experience, t) {
      AskedHasEntry(subjectType, experience, t);
    }
  }

  /** The items come in the order of the catalogue, one for each entry that has one. */
  lemma {:induction false} ReportsInOrder(catalog: seq<Entry>, subjectType: SubjectType, byType: map<string, Document>, experience: Option<real>, now: Time)
    returns (ps: seq<nat>)
    ensures |ps| == |Outstanding(catalog, subjectType, byType, experience, now)|
    ensures forall i, j | 0 <= i < j < |ps| :: ps[i] < ps[j]
    ensures forall k | 0 <= k < |ps| ::
              && ps[k] < |catalog| && catalog[ps[k]].subjectType == subjectType
              && Outstanding(catalog, subjectType, byType, experience, now)[k].documentType == catalog[ps[k]].documentType
  {
    if catalog == [] {
      ps := [];
    } else {
      var n := |catalog| - 1;
      ps := ReportsInOrder(catalog[..n], subjectType, byType, experience, now);
      if ItemsFor(catalog[n], subjectType, byType, experience, now) != [] {
        ps := ps + [n];
      }
    }
  }
}
