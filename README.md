# Frame admission and offload in the detector activity, and the DenseNet learning-rate schedule

This project models two small cores of a mobile edge-offloading client in Dafny.

**The camera-callback path of `DetectorActivity`.** Each camera frame goes through a single-slot gate. A frame that arrives while another is in flight is closed and dropped at once. An admitted frame closes the gate. It gets a release hook (`postInferenceCallback`) that closes that frame's image and reopens the gate. Its pixels are converted into a pixel buffer (`rgbBytes`) and its luminance plane is copied into `luminanceCopy`; both buffers are allocated once and reused. An offload task is then posted to a background thread. The task bumps `frameID`, sends the frame, and runs the release hook only when the server answers with success.

The activity is the class `Detection.DetectorActivity`. Its fields are the source's fields, and each callback is a method. A posted background task is represented by the counter `postedOffloads` and runs when the caller invokes `BackgroundOffload`. The caller may do that at any later point, so the thread hand-off becomes one more event in a sequential interleaving. The gate fields form a pure state machine in module `FrameGate`: `Gate`, `Event` and `Step`. Every callback method proves that it moves those fields exactly as `Step` says, and that it closes the image `Step` names. The lemmas of `FrameGate` then hold for every sequence of callbacks.

**The training loop of `distributed_train.py`.** `decay` is a step schedule: 0.1 before epoch 150, 0.01 before epoch 225, and 0.001 after that. `custom_loop` sets the optimizer's rate from `decay` at the start of every epoch. It resets the four metrics after every epoch except the last. The rates are exact `real` literals. What one epoch of training and test steps feeds the metrics is a function parameter.

Java `int` arithmetic is modelled as wrapping to 32 bits (`JavaTypes.Wrap`). Java `byte` is `JavaTypes.int8`. A nullable field is an `Option`.

Paths of the code worth noting:
- The frame id is bumped when the background task runs (line 288), not when the frame is admitted.
- When `offloadImage` reports failure, nothing releases the frame. The gate stays closed until something calls `readyForNextImage` directly (`FrameGate.FailedOffloadStallsGate`).
- An exception thrown after the release hook is installed (line 252) is caught at line 309. The gate is left closed, the hook is set, and no task is posted. The model covers two such exceptions: the converter writing past the end of `rgbBytes`, and `System.arraycopy` getting a luminance plane longer than `luminanceCopy`.
- An exception thrown between line 210 and line 252 leaves the gate closed with the previous frame's hook, or with none on the first frame. This path is not modelled (see "## Left out").
- The release hook is never cleared. Calling `readyForNextImage` again closes the same image again and clears the flag again.
- There is no timeout on the offload.

## Model

| member | source | states |
|---|---|---|
| Detection.DetectorActivity.OnImageAvailable | TF_Lite_offloading/lite/examples/object_detection/android/app/src/main/java/org/tensorflow/lite/examples/detection/DetectorActivity.java:181-315 | If the preview size is unknown, nothing changes, including the contents of an already allocated `rgbBytes`. Otherwise `rgbBytes` is allocated only when null, with width*height zeroed slots, and reused afterwards. A null image leaves the gate as it was. An image that arrives while a frame is in flight is closed, and the gate is left unchanged. An admitted image closes the gate and becomes the hook's image. Its planes, `yRowStride` and converter strides are captured, it is converted, and its luminance is copied unless the conversion overran `rgbBytes`, in which case `luminanceCopy` is left as it was. A `luminanceCopy` it allocates is a new array with the admitted plane's length; an existing one is reused. A dropped or ignored frame costs no conversion and no copy. The gate fields move exactly as `FrameGate.Step` says |
| Detection.DetectorActivity.AdmitFrame | TF_Lite_offloading/lite/examples/object_detection/android/app/src/main/java/org/tensorflow/lite/examples/detection/DetectorActivity.java:210-306 | The admitted image closes the gate and becomes the hook's image. Its planes and strides are captured. It is converted into the same `rgbBytes` array. Its luminance is copied only if the conversion did not throw. A task is posted only if neither step threw. `frameID` is unchanged |
| Detection.DetectorActivity.GetRgbBytes | TF_Lite_offloading/lite/examples/object_detection/android/app/src/main/java/org/tensorflow/lite/examples/detection/DetectorActivity.java:444-447 | Runs the pending converter on the captured planes, the preview size and the strides, and returns `rgbBytes` itself. The buffer then holds the converter's pixels from index 0 on. Conversion fails exactly when there are more pixels than slots |
| Detection.DetectorActivity.CopyLuminance | TF_Lite_offloading/lite/examples/object_detection/android/app/src/main/java/org/tensorflow/lite/examples/detection/DetectorActivity.java:265-268 | `luminanceCopy` is allocated only when null, with the plane's length, and reused otherwise. After a copy, its prefix equals the plane element-wise and the rest is unchanged. A plane longer than the buffer throws and nothing is written |
| Detection.DetectorActivity.ReadyForNextImage | TF_Lite_offloading/lite/examples/object_detection/android/app/src/main/java/org/tensorflow/lite/examples/detection/DetectorActivity.java:438-442 | Only when a hook exists: closes the hook's image and clears `isProcessingFrame`. With no hook, nothing changes. No other field changes |
| Detection.DetectorActivity.BackgroundOffload | TF_Lite_offloading/lite/examples/object_detection/android/app/src/main/java/org/tensorflow/lite/examples/detection/DetectorActivity.java:284-306 | `frameID` goes up by one, with 32-bit wrap, and one posted task is used up. The hook runs only when `offloadImage` succeeded. On failure the flag and the hook stay as they were, and the held image is untouched, so it stays open. `feedback` ends false. No other field changes |
| Detection.DetectorActivity.OnPreviewSizeChosen | TF_Lite_offloading/lite/examples/object_detection/android/app/src/main/java/org/tensorflow/lite/examples/detection/DetectorActivity.java:147-150 | Records the preview size. `sensorOrientation` is `rotation - screenOrientation` in Java `int` arithmetic. The gate and the buffers are unchanged |
| Detection.DetectorActivity.constructor | TF_Lite_offloading/lite/examples/object_detection/android/app/src/main/java/org/tensorflow/lite/examples/detection/DetectorActivity.java:97-110 | Gate idle, `frameID` 0, no hook, no buffers, preview size 0 |
| FrameGate.Step | TF_Lite_offloading/lite/examples/object_detection/android/app/src/main/java/org/tensorflow/lite/examples/detection/DetectorActivity.java:185-303 | Admission is exactly the idle-to-busy transition. A dropped frame leaves the gate unchanged and closes that frame. Any image an event closes is the dropped frame or the hook's image. Only a posted offload moves the frame id, by one. Admission installs the admitted image as the hook, and no other event changes the hook. The event that reopens a busy gate closes the hook's image. "Busy implies a hook exists" is preserved |
| FrameGate.Release | TF_Lite_offloading/lite/examples/object_detection/android/app/src/main/java/org/tensorflow/lite/examples/detection/DetectorActivity.java:252-260 | The hook closes exactly its own image and clears the flag. The id, the posted tasks and the hook itself are unchanged |
| FrameGate.IgnoredArrivalChangesNothing | TF_Lite_offloading/lite/examples/object_detection/android/app/src/main/java/org/tensorflow/lite/examples/detection/DetectorActivity.java:185-196 | A callback before the preview size is known, or one with a null image, changes nothing and closes nothing |
| FrameGate.AdmissionBalance | TF_Lite_offloading/lite/examples/object_detection/android/app/src/main/java/org/tensorflow/lite/examples/detection/DetectorActivity.java:205-210 | Over any event sequence: admissions + busy-at-start = reopenings + busy-at-end |
| FrameGate.AtMostOneInFlight | TF_Lite_offloading/lite/examples/object_detection/android/app/src/main/java/org/tensorflow/lite/examples/detection/DetectorActivity.java:205-210 | From an idle gate, the events admit at most one frame more than they release; from a busy gate, none more |
| FrameGate.StalledGateDropsEveryFrame | TF_Lite_offloading/lite/examples/object_detection/android/app/src/main/java/org/tensorflow/lite/examples/detection/DetectorActivity.java:205-209 | With the gate busy and no task posted, every sequence without `readyForNextImage` keeps the gate busy and the hook unchanged. It admits nothing and closes every frame that arrives |
| FrameGate.FailedOffloadStallsGate | TF_Lite_offloading/lite/examples/object_detection/android/app/src/main/java/org/tensorflow/lite/examples/detection/DetectorActivity.java:293-303 | After an admission whose offload fails (or whose work throws), no later event except `readyForNextImage` admits a frame or releases the held image |
| FrameGate.SuccessfulOffloadReleasesAdmittedFrame | TF_Lite_offloading/lite/examples/object_detection/android/app/src/main/java/org/tensorflow/lite/examples/detection/DetectorActivity.java:294-302 | Admit then a successful offload: exactly the admitted image is closed, the gate is idle again, and the offload is tagged with the next frame id |
| FrameGate.HookHeldWhileBusy | TF_Lite_offloading/lite/examples/object_detection/android/app/src/main/java/org/tensorflow/lite/examples/detection/DetectorActivity.java:205-209 | While the gate stays busy through a sequence of events, the release hook is the one it started with |
| FrameGate.AdmittedFrameClosedByFirstReopening | TF_Lite_offloading/lite/examples/object_detection/android/app/src/main/java/org/tensorflow/lite/examples/detection/DetectorActivity.java:252-260 | Once an image is admitted, the first later event that reopens the gate closes exactly that image, whatever interleaving of dropped frames, failed offloads and other events came before |
| FrameGate.OffloadIdsIncrease | TF_Lite_offloading/lite/examples/object_detection/android/app/src/main/java/org/tensorflow/lite/examples/detection/DetectorActivity.java:288 | The k-th offload that runs is tagged with start id + k + 1, and the final id is start + number of offloads |
| FrameGate.OffloadIdsDistinct | TF_Lite_offloading/lite/examples/object_detection/android/app/src/main/java/org/tensorflow/lite/examples/detection/DetectorActivity.java:288 | Offloads in one session carry strictly increasing, hence distinct, ids |
| DistributedTrain.Decay | TF_Lite_offloading/tensorflow_examples/models/densenet/distributed_train.py:58-64 | The rate is always one of 0.1, 0.01 and 0.001, and so positive and at most 0.1. The three guards cover every epoch, so `decay` never falls through to `None` |
| DistributedTrain.DecayBands | TF_Lite_offloading/tensorflow_examples/models/densenet/distributed_train.py:58-64 | 0.1 for epoch < 150, 0.01 for 150 <= epoch < 225, 0.001 from 225 on |
| DistributedTrain.DecayNonIncreasing | TF_Lite_offloading/tensorflow_examples/models/densenet/distributed_train.py:58-64 | A later epoch never has a higher rate |
| DistributedTrain.ScheduleNonIncreasing | TF_Lite_offloading/tensorflow_examples/models/densenet/distributed_train.py:125-126 | The per-epoch rates of a run are positive, at most 0.1 and non-increasing |
| DistributedTrain.ResetBetweenEpochs | TF_Lite_offloading/tensorflow_examples/models/densenet/distributed_train.py:145-149 | After every epoch but the last, all four metrics are empty |
| DistributedTrain.OnlyLastEpochReported | TF_Lite_offloading/tensorflow_examples/models/densenet/distributed_train.py:145-154 | The final metrics hold only the last epoch's samples; with a single epoch, they also keep what they held on entry |
| DistributedTrain.Train.CustomLoop | TF_Lite_offloading/tensorflow_examples/models/densenet/distributed_train.py:125-154 | Epoch e runs with rate `decay(e)`, so the rates in force are exactly the schedule. The final rate is `decay(epochs - 1)`. The result is the final metrics, as `OnlyLastEpochReported` describes. With no epochs, nothing changes |
| DistributedTrain.Train.constructor | TF_Lite_offloading/tensorflow_examples/models/densenet/distributed_train.py:43-56 | SGD starts at rate 0.1 and the metrics start empty |

## Left out

- The YUV-to-ARGB conversion inside `ImageUtils.convertYUV420ToARGB8888`: its source is not part of this model. It is the function parameter `convert`; the model only writes its output into `rgbBytes` from index 0 on.
- `offloadImage` and the socket code: their source is not part of this model. The offload answer is the boolean `success`.
- `fillBytes` (the base activity): it is modelled as copying the three plane buffers verbatim. Its own reuse of the `yuvBytes` arrays is not modelled.
- `MultiBoxTracker`, `trackingOverlay`, the detector, `Trace`, `Log`, `Toast`, `setUseNNAPI` and `setNumThreads`: these are UI and external collaborators.
- `Bitmap.setPixels`, the canvas drawing into `croppedBitmap`, and the `Matrix` transforms built in `onPreviewSizeChosen`: these are platform floating-point graphics, and any exception they throw is not modelled.
- Exceptions from `getPlanes`, `fillBytes` and `tracker.onFrame` (lines 213-229): these are platform and tracker calls. In the source such an exception is caught at line 309 after `isProcessingFrame` was set but before the new hook is installed. A later `readyForNextImage` then closes the previous frame's image again and the new image is never closed; on the first frame no hook exists and nothing reopens the gate. The gate model's invariant (a busy gate has a hook) and `FrameGate.Step` do not cover these states.
- An `IllegalStateException` from `acquireLatestImage`: this is platform behaviour and is not modelled.
- `appendLog` and `appendLog0`: these are file I/O whose errors are swallowed.
- Real threading and memory visibility: `runInBackground` is a posted-task counter plus a method the caller fires later.
- The commented-out `processImage` (lines 318-410): this is dead code.
- Detection.DetectorActivity.OnImageAvailable: the allocation length `previewWidth * previewHeight` is not reduced to 32 bits, because preview sizes keep it far below 2^31.
- FrameGate.OffloadIdsIncrease: stated only while the 32-bit counter does not wrap (fewer than 2^31 offloads). The wrap itself is modelled in `Step` and `BackgroundOffload`.
- In `distributed_train.py`: the TensorFlow training and test steps, gradient tapes, `MirroredStrategy`, iterators, `tf.function`, dataset creation, flags, `main` and `print`. What an epoch feeds the metrics is the parameter `epochSamples`. The reduction `result()` of each Keras metric is not modelled; the loop returns the samples each metric holds.
