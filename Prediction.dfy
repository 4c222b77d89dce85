/**
  The text classification endpoint (`POST /predict`). The feature extractor
  and the classifier are opaque: the model takes the classifier's answer, a
  class index, as a function of the input text. What remains is the fixed
  table from class index to category name and the shape of the reply, a map
  with one entry from the category name to the index.
 */
module Prediction {

  /** The seven categories the classifier distinguishes. */
  const CATEGORIES: set<string> :=
    {"Anxiety", "Normal", "Depression", "Suicidal", "Stress", "Bipolar", "Personality disorder"}

  const LABEL_MAPPING: map<int, string> := map[
    0 := "Anxiety",
    1 := "Normal",
    2 := "Depression",
    3 := "Suicidal",
    4 := "Stress",
    5 := "Bipolar",
    6 := "Personality disorder"
  ]

  const BAD_REQUEST := 400

  datatype Option<T> = None | Some(value: T)

  /** Why a request fails: the body has no `text` field, or the classifier
      returned an index the table does not hold (the service's dictionary
      lookup raises KeyError). */
  datatype PredictError = MissingText | UnknownIndex(index: int)

  datatype Outcome = Predicted(prediction: map<string, int>) | Failed(error: PredictError)

  /** The HTTP reply: the prediction with status 200, or an error with its status. */
  datatype Response = Json(body: map<string, int>) | Error(error: PredictError, status: int)

  /** The table is defined on exactly the indices 0 .. 6. */
  lemma LabelMappingDomain()
    ensures forall i :: i in LABEL_MAPPING <==> 0 <= i < 7
  {
    assert LABEL_MAPPING.Keys == {0, 1, 2, 3, 4, 5, 6};
  }

  /** The table gives different indices different names. */
  lemma LabelMappingInjective()
    ensures forall i, j :: i in LABEL_MAPPING && j in LABEL_MAPPING && i != j ==>
      LABEL_MAPPING[i] != LABEL_MAPPING[j]
  {
    LabelMappingDomain();
  }

  /** The table's names are exactly the seven categories. */
  lemma LabelMappingOnto()
    ensures LABEL_MAPPING.Values == CATEGORIES
  {
    LabelMappingDomain();
    var names := ["Anxiety", "Normal", "Depression", "Suicidal", "Stress", "Bipolar", "Personality disorder"];
    forall i | 0 <= i < 7 ensures LABEL_MAPPING[i] == names[i] {
    }
    forall v | v in LABEL_MAPPING.Values ensures v in CATEGORIES {
      var i :| i in LABEL_MAPPING && LABEL_MAPPING[i] == v;
    }
    forall c | c in CATEGORIES ensures c in LABEL_MAPPING.Values {
      assert c in names;
      var i :| 0 <= i < 7 && names[i] == c;
      assert LABEL_MAPPING[i] == c;
    }
  }

  /** The seven category names are seven different strings. */
  lemma CategoriesCount()
    ensures |CATEGORIES| == 7
  {
    var s := {"Anxiety"};
    s := s + {"Normal"};
    assert |s| == 2;
    s := s + {"Depression"};
    assert |s| == 3;
    s := s + {"Suicidal"};
    assert |s| == 4;
    s := s + {"Stress"};
    assert |s| == 5;
    s := s + {"Bipolar"};
    assert |s| == 6;
    s := s + {"Personality disorder"};
    assert |s| == 7;
    assert s == CATEGORIES;
  }

  /** `predict_new_text` once the classifier has produced `predictedIndex`. */
  function PredictNewText(predictedIndex: int): (r: Outcome)
    ensures r.Predicted? <==> 0 <= predictedIndex < 7
    ensures r.Failed? ==> r.error == UnknownIndex(predictedIndex)
    ensures r.Predicted? ==>
      |r.prediction| == 1 && r.prediction.Values == {predictedIndex} && r.prediction.Keys <= CATEGORIES
    ensures r.Predicted? ==> forall name :: name in r.prediction ==>
      r.prediction[name] in LABEL_MAPPING && LABEL_MAPPING[r.prediction[name]] == name
  {
    if predictedIndex in LABEL_MAPPING then
      var name := LABEL_MAPPING[predictedIndex];
      Predicted(map[name := predictedIndex])
    else
      Failed(UnknownIndex(predictedIndex))
  }

  /** The category name in a reply determines the index: two indices that
      both yield a prediction with the same name are the same index. */
  lemma PredictionLabelDeterminesIndex(i: int, j: int)
    requires PredictNewText(i).Predicted? && PredictNewText(j).Predicted?
    requires PredictNewText(i).prediction.Keys == PredictNewText(j).prediction.Keys
    ensures i == j
  {
    LabelMappingDomain();
    LabelMappingInjective();
    var name := LABEL_MAPPING[i];
    assert name in PredictNewText(i).prediction;
    assert name in PredictNewText(j).prediction;
    assert LABEL_MAPPING[j] == name;
  }

  /** The handler: read `text`, classify it, and reply; every failure is a 400. */
  function Predict(text: Option<string>, classify: string -> int): (r: Response)
    ensures r.Error? ==> r.status == BAD_REQUEST
    ensures text.None? ==> r == Error(MissingText, BAD_REQUEST)
    ensures text.Some? ==> (r.Json? <==> 0 <= classify(text.value) < 7)
    ensures text.Some? && r.Error? ==> r.error == UnknownIndex(classify(text.value))
    ensures r.Json? ==> text.Some? && r.body == map[LABEL_MAPPING[classify(text.value)] := classify(text.value)]
  {
    match text
    case None => Error(MissingText, BAD_REQUEST)
    case Some(t) =>
      match PredictNewText(classify(t))
      case Predicted(m) => Json(m)
      case Failed(e) => Error(e, BAD_REQUEST)
  }
}
