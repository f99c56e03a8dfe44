/**
 * The doctor record (models/DoctorModel.js): a public `doctorId` and a
 * `name`, each under a unique index, the profile fields, an `isActive`
 * flag that defaults to true, a list of time slots and a list of working
 * days.  The schema declares no password path.
 */
module DoctorModel {
  import opened Wrappers
  import opened Collection

  datatype TimeSlot = TimeSlot(startTime: string, endTime: string, isAvailable: bool)

  datatype Doctor = Doctor(
    doctorId: string, name: string, education: string, department: string, about: string,
    experience: string, fees: string, image: string, youtubeLink: string,
    instagramLink: string, facebookLink: string, isActive: bool, speciality: string,
    timeSlots: seq<TimeSlot>, workingDays: seq<string>)

  ghost predicate UniqueDoctorIds(docs: seq<Doc<Doctor>>) {
    forall i, j :: 0 <= i < j < |docs| ==> docs[i].rec.doctorId != docs[j].rec.doctorId
  }

  ghost predicate UniqueNames(docs: seq<Doc<Doctor>>) {
    forall i, j :: 0 <= i < j < |docs| ==> docs[i].rec.name != docs[j].rec.name
  }

  /** The invariant of the doctors collection: keys, doctorIds and names unique, the required paths present. */
  ghost predicate WellFormed(docs: seq<Doc<Doctor>>) {
    && UniqueKeys(docs) && UniqueDoctorIds(docs) && UniqueNames(docs)
    && forall i :: 0 <= i < |docs| ==> docs[i].rec.doctorId != "" && docs[i].rec.name != ""
  }

  /** Whether storing `d` would violate the doctorId or the name unique index. */
  predicate Clashes(docs: seq<Doc<Doctor>>, d: Doctor) {
    exists i :: 0 <= i < |docs| && (docs[i].rec.doctorId == d.doctorId || docs[i].rec.name == d.name)
  }

  function HasDoctorId(doctorId: string): Doc<Doctor> -> bool {
    (d: Doc<Doctor>) => d.rec.doctorId == doctorId
  }

  /** `Doctor.findOne({ doctorId })`: the position of the doctor with that public id. */
  function FindByDoctorId(docs: seq<Doc<Doctor>>, doctorId: string): (r: Option<nat>)
    ensures r.Some? ==> r.value < |docs| && docs[r.value].rec.doctorId == doctorId
    ensures r.None? <==> forall i :: 0 <= i < |docs| ==> docs[i].rec.doctorId != doctorId
  {
    FirstIndex(docs, HasDoctorId(doctorId))
  }

  /** With unique doctorIds, the lookup finds the one doctor holding the id. */
  lemma FindByDoctorIdUnique(docs: seq<Doc<Doctor>>, i: nat)
    requires WellFormed(docs) && i < |docs|
    ensures FindByDoctorId(docs, docs[i].rec.doctorId) == Some(i)
  {
  }

  /** Saving a doctor that clears both unique indexes keeps the collection well formed. */
  lemma InsertKeepsWellFormed(docs: seq<Doc<Doctor>>, key: Id, d: Doctor)
    requires WellFormed(docs) && key !in Keys(docs)
    requires d.doctorId != "" && d.name != "" && !Clashes(docs, d)
    ensures WellFormed(docs + [Doc(key, d)])
  {
    AppendFreshKey(docs, Doc(key, d));
    var r := docs + [Doc(key, d)];
    forall i, j | 0 <= i < j < |r|
      ensures r[i].rec.doctorId != r[j].rec.doctorId && r[i].rec.name != r[j].rec.name
    {
      if j == |docs| {
        assert r[i] == docs[i];
      }
    }
  }

  /** Saving a record that keeps its doctorId and name over an existing doctor keeps the collection well formed. */
  lemma PutKeepsWellFormed(docs: seq<Doc<Doctor>>, i: nat, d: Doctor)
    requires WellFormed(docs) && i < |docs|
    requires d.doctorId == docs[i].rec.doctorId && d.name == docs[i].rec.name
    ensures WellFormed(Put(docs, docs[i].id, d))
  {
    var r := Put(docs, docs[i].id, d);
    forall j | 0 <= j < |docs|
      ensures r[j].rec.doctorId == docs[j].rec.doctorId && r[j].rec.name == docs[j].rec.name
    {
      if docs[j].id == docs[i].id {
        assert j == i;
      }
    }
  }

  /**
   * `deleteOne({ doctorId })` on a well-formed collection: what remains is
   * well formed and no longer holds the id.
   */
  lemma RemoveKeepsWellFormed(docs: seq<Doc<Doctor>>, k: nat)
    requires WellFormed(docs) && k < |docs|
    ensures var r := docs[..k] + docs[k + 1..];
      && WellFormed(r)
      && (forall i :: 0 <= i < |r| ==> r[i].rec.doctorId != docs[k].rec.doctorId)
  {
    var r := docs[..k] + docs[k + 1..];
    RemoveKeepsUnique(docs, k);
    forall i | 0 <= i < |r|
      ensures r[i] == docs[if i < k then i else i + 1]
    {
    }
    forall i, j | 0 <= i < j < |r|
      ensures r[i].rec.doctorId != r[j].rec.doctorId && r[i].rec.name != r[j].rec.name
    {
      assert r[i] == docs[if i < k then i else i + 1];
      assert r[j] == docs[if j < k then j else j + 1];
    }
  }

  /** The doctors collection. */
  class DoctorStore {
    var docs: seq<Doc<Doctor>>

    ghost predicate Valid()
      reads this
    {
      WellFormed(docs)
    }

    constructor ()
      ensures Valid() && docs == []
    {
      docs := [];
    }

    /**
     * `save()` of a new doctor: refused when a required path is empty or a
     * unique index already holds the doctorId or the name; stored otherwise.
     */
    method Insert(key: Id, d: Doctor) returns (saved: bool)
      requires Valid() && key !in Keys(docs)
      modifies this
      ensures Valid()
      ensures saved <==> d.doctorId != "" && d.name != "" && !Clashes(old(docs), d)
      ensures saved ==> docs == old(docs) + [Doc(key, d)]
      ensures !saved ==> docs == old(docs)
    {
      saved := d.doctorId != "" && d.name != "" && !Clashes(docs, d);
      if saved {
        InsertKeepsWellFormed(docs, key, d);
        docs := docs + [Doc(key, d)];
      }
    }
  }
}
