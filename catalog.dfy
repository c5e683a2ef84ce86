/** The question catalog: each facility category with its ordered question labels. */
module Catalog {
  import opened Seqs

  /** Category names with their question labels, in the order the dict lists them. */
  type QuestionCatalog = seq<(string, seq<string>)>

  function Names(cat: QuestionCatalog): (names: seq<string>)
    ensures |names| == |cat|
  {
    seq(|cat|, i requires 0 <= i < |cat| => cat[i].0)
  }

  /** A dict has each key once; the labels of one category are distinct. */
  predicate WellFormedCatalog(cat: QuestionCatalog)
  {
    && Distinct(Names(cat))
    && forall i | 0 <= i < |cat| :: Distinct(cat[i].1)
  }

  // The dashboard's catalog, `kategori_fasilitas`, one category at a time.

  const RuangKelas: (string, seq<string>) := ("Ruang Kelas & Belajar", [
    "Ruang kelas/kerja bersih & tertata.", "Meja & kursi nyaman.", "Pencahayaan cukup.",
    "Ventilasi/AC berfungsi dengan baik.", "Papan tulis & spidol/ alat tulis memadai.",
    "Proyektor & alat ajar berfungsi.", "Terdapat colokan listrik", "Ruang cukup luas",
    "Kebisingan dari luar tidak mengganggu.", "Saya nyaman belajar/mengajar/kerja"])

  const Perpustakaan: (string, seq<string>) := ("Perpustakaan", [
    "Apakah koleksi buku perpustakaan cukup lengkap ?", "Suasana perpustakaan kondusif",
    "Tempat duduk perpustakaan memadai", "Sistem peminjaman buku efisien",
    "Apakah petugas perpustakaan ramah", "Tersedia internet/komputer", "Akses jurnal digital mudah"])

  const TeknologiInternet: (string, seq<string>) := ("Teknologi & Internet", [
    "Wi\U{2011}Fi mudah diakses", "Kecepatan internet stabil", "Sistem akademik mudah digunakan",
    "Bantuan tim IT responsif."])

  const KebersihanKesehatan: (string, seq<string>) := ("Kebersihan & Kesehatan", [
    "Tempat sampah tersedia dan memadai", "Toilet bersih", "Pembersihan dilakukan secara rutin",
    "Tersedia P3K", "Lingkungan higienis dan bersih"])

  const Kantin: (string, seq<string>) := ("Kantin", [
    "Menu cukup bervariasi.", "Harga terjangkau.", "Kualitas makanan baik",
    "Area makan nyaman", "Pelayanan ramah & cepat."])

  const KeamananParkir: (string, seq<string>) := ("Keamanan & Parkir", [
    "Sistem keamanan efektif.", "Petugas ramah & membantu", "Parkir memadai & aman",
    "Penerangan cukup", "Tidak ada area rawan.", "Akses masuk terkontrol",
    "Evakuasi & jalur Darurat jelas"])

  /** `kategori_fasilitas`: the six categories in the order the dict lists them. */
  const KategoriFasilitas: QuestionCatalog :=
    [RuangKelas, Perpustakaan, TeknologiInternet, KebersihanKesehatan, Kantin, KeamananParkir]

  lemma KategoriFasilitasWellFormed()
    ensures |KategoriFasilitas| == 6
    ensures WellFormedCatalog(KategoriFasilitas)
  {
    assert Names(KategoriFasilitas) == [RuangKelas.0, Perpustakaan.0, TeknologiInternet.0,
      KebersihanKesehatan.0, Kantin.0, KeamananParkir.0];
    assert Distinct(RuangKelas.1);
    assert Distinct(Perpustakaan.1);
    assert Distinct(TeknologiInternet.1);
    assert Distinct(KebersihanKesehatan.1);
    assert Distinct(Kantin.1);
    assert Distinct(KeamananParkir.1);
  }

  /** Every label of every category, category by category (`kolom_penilaian`). */
  function AllLabels(cat: QuestionCatalog): (labels: seq<string>)
    ensures forall l :: l in labels <==> exists i | 0 <= i < |cat| :: l in cat[i].1
  {
    if cat == [] then []
    else
      var rest := AllLabels(cat[1..]);
      assert forall l :: (exists i | 0 <= i < |cat| :: l in cat[i].1) <==>
                         l in cat[0].1 || exists i | 0 <= i < |cat| - 1 :: l in cat[1..][i].1 by {
        forall l | exists i | 0 <= i < |cat| :: l in cat[i].1
          ensures l in cat[0].1 || exists i | 0 <= i < |cat| - 1 :: l in cat[1..][i].1
        {
          var i :| 0 <= i < |cat| && l in cat[i].1;
          if i > 0 { assert l in cat[1..][i - 1].1; }
        }
      }
      cat[0].1 + rest
  }

  /** The labels stored under category `name`, looked up by key. */
  function LabelsOf(cat: QuestionCatalog, name: string): (labels: seq<string>)
    requires name in Names(cat)
    ensures exists i | 0 <= i < |cat| :: cat[i] == (name, labels)
  {
    if cat[0].0 == name then cat[0].1
    else
      assert name in Names(cat[1..]) by {
        var k :| 0 <= k < |cat| && Names(cat)[k] == name;
        assert Names(cat[1..])[k - 1] == name;
      }
      var labels := LabelsOf(cat[1..], name);
      assert exists i | 0 <= i < |cat| :: cat[i] == (name, labels) by {
        var i :| 0 <= i < |cat| - 1 && cat[1..][i] == (name, labels);
        assert cat[i + 1] == (name, labels);
      }
      labels
  }
}
