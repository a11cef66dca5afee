/** The link between the classifier and the scheduler. */
module Observations {
  import opened Basics
  import opened Failures
  import opened Classifier
  import opened Accounts
  import opened Durable
  import opened Scheduler

  /** The class that the classifier gives a record. */
  ghost function ClassOf(cfg: Configuration, rec: Usage, now: Time): Classification {
    Classified(rec.response, ObservedAt(rec, now), cfg.fallback)
  }

  /** Every observation of the program is a proper step. */
  lemma ClassifierIsProper(cfg: Configuration, rec: Usage, now: Time, f: SaveFault)
    requires GoodConfiguration(cfg)
    ensures Proper(ObserveStep(rec, ClassOf(cfg, rec, now), now, f))
  {
    ClassificationBounds(rec.response, ObservedAt(rec, now), cfg.fallback);
  }
}
