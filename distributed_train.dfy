/** The learning-rate schedule and the epoch loop of the DenseNet trainer.
    The training and test steps themselves (the model, gradients, the
    distribution strategy, the data sets) are not modelled: what one epoch of
    steps feeds the four metrics is a parameter of the loop. */
module DistributedTrain {

  /** `Train.decay`: the learning rate for `epoch`, a step schedule that drops
      tenfold at epoch 150 and again at epoch 225. */
  function Decay(epoch: int): (rate: real)
    ensures 0.0 < rate <= 0.1
    ensures rate == 0.1 || rate == 0.01 || rate == 0.001
  {
    if epoch < 150 then 0.1
    else if epoch >= 150 && epoch < 225 then 0.01
    else if epoch >= 225 then 0.001
    else assert false; 0.0
  }

  /** The three bands of the schedule. */
  lemma DecayBands(epoch: int)
    ensures epoch < 150 ==> Decay(epoch) == 0.1
    ensures 150 <= epoch < 225 ==> Decay(epoch) == 0.01
    ensures 225 <= epoch ==> Decay(epoch) == 0.001
  {
  }

  /** The rate never goes up as training proceeds. */
  lemma DecayNonIncreasing(earlier: int, later: int)
    requires earlier <= later
    ensures Decay(later) <= Decay(earlier)
  {
  }

  /** The rates of epochs 0 to n - 1, in order. */
  function Schedule(n: nat): (rates: seq<real>)
    ensures |rates| == n
  {
    seq(n, epoch => Decay(epoch))
  }

  /** Any run of the loop uses positive rates that never increase. */
  lemma ScheduleNonIncreasing(n: nat, i: nat, j: nat)
    requires i <= j < n
    ensures 0.0 < Schedule(n)[j] <= Schedule(n)[i] <= 0.1
  {
    DecayNonIncreasing(i, j);
  }

  /** What the four Keras metrics have accumulated since their last reset:
      the samples fed to the training loss and accuracy and to the test loss
      and accuracy. `result()` reduces each of them to one number. */
  datatype Metrics = Metrics(trainLoss: seq<real>, trainAccuracy: seq<real>,
                             testLoss: seq<real>, testAccuracy: seq<real>)
  {
    /** Each metric after also being fed `more`'s samples. */
    function Record(more: Metrics): Metrics {
      Metrics(trainLoss + more.trainLoss, trainAccuracy + more.trainAccuracy,
              testLoss + more.testLoss, testAccuracy + more.testAccuracy)
    }
  }

  /** All four metrics after `reset_states()`. */
  const Reset: Metrics := Metrics([], [], [], [])

  /** The metrics after the first `k` epochs of a `custom_loop` of `epochs`
      epochs that started from `start`; `epochSamples(e, rate)` is what the
      steps of epoch `e` feed the metrics while the learning rate is `rate`. */
  function AfterEpochs(start: Metrics, k: nat, epochs: int, epochSamples: (int, real) -> Metrics): Metrics
    decreases k
  {
    if k == 0 then start
    else
      var epoch := k - 1;
      var recorded := AfterEpochs(start, epoch, epochs, epochSamples).Record(epochSamples(epoch, Decay(epoch)));
      if epoch != epochs - 1 then Reset else recorded
  }

  /** Between two epochs every metric is empty again. */
  lemma ResetBetweenEpochs(start: Metrics, k: nat, epochs: int, epochSamples: (int, real) -> Metrics)
    requires 1 <= k < epochs
    ensures AfterEpochs(start, k, epochs, epochSamples) == Reset
  {
  }

  /** What the loop returns reflects the last epoch only: the samples of that
      epoch, plus what the metrics held on entry when there was just one. */
  lemma OnlyLastEpochReported(start: Metrics, epochs: int, epochSamples: (int, real) -> Metrics)
    requires epochs >= 1
    ensures epochs >= 2 ==> AfterEpochs(start, epochs, epochs, epochSamples) == epochSamples(epochs - 1, Decay(epochs - 1))
    ensures epochs == 1 ==> AfterEpochs(start, epochs, epochs, epochSamples) == start.Record(epochSamples(0, Decay(0)))
  {
    if epochs >= 2 {
      ResetBetweenEpochs(start, epochs - 1, epochs, epochSamples);
      var last := epochSamples(epochs - 1, Decay(epochs - 1));
      assert Reset.Record(last) == last;
    }
  }

  /** The trainer: its epoch count, the optimizer's learning rate and the four
      metrics. */
  class Train {
    const epochs: int
    var learningRate: real
    var trainLossMetric: seq<real>
    var trainAccMetric: seq<real>
    var testLossMetric: seq<real>
    var testAccMetric: seq<real>
    /** The learning rate in force during each epoch the loop has run. */
    ghost var epochRates: seq<real>

    function CurrentMetrics(): Metrics
      reads this
    {
      Metrics(trainLossMetric, trainAccMetric, testLossMetric, testAccMetric)
    }

    /** `Train.__init__`: SGD starts at rate 0.1 and the metrics are empty. */
    constructor (epochs: int)
      ensures this.epochs == epochs && learningRate == 0.1
      ensures CurrentMetrics() == Reset && epochRates == []
    {
      this.epochs := epochs;
      learningRate := 0.1;
      trainLossMetric, trainAccMetric, testLossMetric, testAccMetric := [], [], [], [];
      epochRates := [];
    }

    /** `Train.custom_loop`: for each epoch, set the optimizer's rate from
        `decay`, run the epoch's steps, and reset the four metrics unless it
        was the last epoch; return what the metrics hold at the end. */
    method CustomLoop(epochSamples: (int, real) -> Metrics) returns (result: Metrics)
      modifies this
      ensures result == CurrentMetrics()
      ensures CurrentMetrics() == AfterEpochs(old(CurrentMetrics()), if epochs < 0 then 0 else epochs, epochs, epochSamples)
      ensures epochRates == old(epochRates) + Schedule(if epochs < 0 then 0 else epochs)
      ensures epochs >= 1 ==> learningRate == Decay(epochs - 1)
      ensures epochs >= 2 ==> result == epochSamples(epochs - 1, Decay(epochs - 1))
      ensures epochs == 1 ==> result == old(CurrentMetrics()).Record(epochSamples(0, Decay(0)))
      ensures epochs <= 0 ==> result == old(CurrentMetrics()) && learningRate == old(learningRate)
    {
      var epoch := 0;
      while epoch < epochs
        invariant 0 <= epoch <= (if epochs < 0 then 0 else epochs)
        invariant CurrentMetrics() == AfterEpochs(old(CurrentMetrics()), epoch, epochs, epochSamples)
        invariant epochRates == old(epochRates) + Schedule(epoch)
        invariant learningRate == if epoch == 0 then old(learningRate) else Decay(epoch - 1)
      {
        learningRate := Decay(epoch);
        epochRates := epochRates + [learningRate];
        assert Schedule(epoch + 1) == Schedule(epoch) + [Decay(epoch)];
        var samples := epochSamples(epoch, learningRate);
        trainLossMetric := trainLossMetric + samples.trainLoss;
        trainAccMetric := trainAccMetric + samples.trainAccuracy;
        testLossMetric := testLossMetric + samples.testLoss;
        testAccMetric := testAccMetric + samples.testAccuracy;
        if epoch != epochs - 1 {
          trainLossMetric, trainAccMetric, testLossMetric, testAccMetric := [], [], [], [];
        }
        epoch := epoch + 1;
      }
      result := CurrentMetrics();
      if epochs >= 1 {
        OnlyLastEpochReported(old(CurrentMetrics()), epochs, epochSamples);
      }
    }
  }
}
